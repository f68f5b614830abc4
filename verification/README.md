# jaxrs-doclet: the model walker and the doclet options, in Dafny

This project models two classes of the jaxrs-doclet Swagger generator.

- `ApiModelParser` walks a type graph from a root type. It follows each member's type
  and that type's first type argument only, so a type reached solely through a later
  argument (the value type of a `Map<String, Foo>`) or a nested one
  (`List<List<Foo>>`) is never visited. The members of a type are its non-static
  fields, those of its superclasses and its own non-static methods whose translated
  name is not `null`; which names are `null` is up to the translator. The walk stores
  one `Model` per non-terminal type that has at least one such member, skipping
  types whose translated name is already stored. The model maps member names to
  properties.
- `DocletOptions` holds the doclet's command-line options. Its constructor sets the
  defaults, and `parse` folds the `String[][]` option array over them.

The javadoc reflection API becomes a finite table of types and class declarations
(`Javadoc.Universe`), indexed by number so that cyclic type graphs can be written down.
The name translator becomes three total functions returning `Option<string>`, where
`None` stands for a `null` name.

`Parser.ApiModelParser` is a class. Its `models` field grows as `ParseModel` and
`ParseNestedModels` call each other, and its loops mirror the Java loops. The last
step of `parseModel` (store the model, then walk the member types) is the separate
method `AddModel`, so that each method's proof stays small. `ParseModel`, `AddModel`
and `ParseNestedModels` are proved equal to a functional walk (`Parser.Walk`,
`Parser.WalkAll`) over the ghost sequence `sources` of the types that produced the
stored models. `FindReferencedTypes`, `FindReferencedElements` and `AllFields` are
proved equal to the functions `Parser.ReferencedTypes`, `Parser.ElementsOf` and
`Javadoc.ChainFields`.

The walk's termination measure is the number of translated names in the universe that
are not yet model ids. It strictly decreases because `parseModel` stores a model before
it recurses.

The lemmas about the walk prove:

- what is stored;
- that model ids stay distinct;
- that every member type and first type argument of a stored type is handled when the
  walk ends;
- that the walk cannot fail unless some type has a `null` translated name. Such a
  name becomes a model id, and the next `alreadyStoredType` call then throws a
  `NullPointerException`.

`Doclet.DocletOptions` is a class whose `Parse` loop applies one option at a time. It
is proved equal to a fold (`Doclet.ParseFrom`) over an immutable `Settings` value. The
lemmas about that fold state, for each option, what the parsed options hold.

Three behaviours of the code worth noting:

- The container element is the first type argument of any parameterized type with at
  least one argument, not only of single-argument containers (`getTypeArgument`).
- Enum member types are visited like every other member type. An enum with non-static
  fields or methods of its own therefore gets a `Model` too.
- A `null` translated type name is stored as a model id. Model ids still stay
  distinct, but the next visit of a non-terminal type throws in `alreadyStoredType`
  instead of being skipped or stored, so the walk ends with the exception.

## Model

| member | source | states |
|---|---|---|
| Javadoc.TypeArgument | jaxrs-doclet/src/main/java/com/hypnoticocelot/jaxrs/doclet/parser/ApiModelParser.java:168-178 | there is a first type argument exactly when the type is parameterized with at least one argument, and then it is `typeArguments[0]` |
| Javadoc.ChainFields | jaxrs-doclet/src/main/java/com/hypnoticocelot/jaxrs/doclet/parser/ApiModelParser.java:127-133 | the declaration's own fields come first, and every collected field has a type of the universe |
| Parser.ApiModelParser.AllFields | jaxrs-doclet/src/main/java/com/hypnoticocelot/jaxrs/doclet/parser/ApiModelParser.java:127-133 | the result is the incoming list followed by the fields of the declaration and of each superclass up the chain, and nothing for a null declaration |
| Parser.StartsWithAny | jaxrs-doclet/src/main/java/com/hypnoticocelot/jaxrs/doclet/parser/ApiModelParser.java:71-78 | true iff some prefix in the list is non-empty and starts the name, so an empty list and empty prefixes never match |
| Parser.IsTerminal | jaxrs-doclet/src/main/java/com/hypnoticocelot/jaxrs/doclet/parser/ApiModelParser.java:43-50 | a type is terminal when it is primitive, its qualified name starts with `javax.`, it is `java.lang.Object`, it is listed as opaque, it starts with a non-empty opaque package prefix, or it has no class declaration |
| Parser.WalkSkips | jaxrs-doclet/src/main/java/com/hypnoticocelot/jaxrs/doclet/parser/ApiModelParser.java:50-63 | a terminal type, a type whose translated name is already stored, and a type without members leave the stored models unchanged and visit no members |
| Parser.WalkStops | jaxrs-doclet/src/main/java/com/hypnoticocelot/jaxrs/doclet/parser/ApiModelParser.java:54-56 | a non-terminal type met once a stored model has a `null` id ends the walk with the exception |
| Parser.AlreadyStoredType | jaxrs-doclet/src/main/java/com/hypnoticocelot/jaxrs/doclet/parser/ApiModelParser.java:180-187 | it throws (`None`) iff some stored model has a null id, and otherwise answers true iff some stored id equals the translated name |
| Parser.IdsOfModels | jaxrs-doclet/src/main/java/com/hypnoticocelot/jaxrs/doclet/parser/ApiModelParser.java:54-56 | the ids of the stored models are exactly the translated names of the types that produced them |
| Parser.FieldEntriesYield | jaxrs-doclet/src/main/java/com/hypnoticocelot/jaxrs/doclet/parser/ApiModelParser.java:99-107 | every field entry comes from a non-static field with a non-null name, typed by the field's type and described by its raw comment, and every such field gives its entry |
| Parser.MethodEntriesYield | jaxrs-doclet/src/main/java/com/hypnoticocelot/jaxrs/doclet/parser/ApiModelParser.java:110-123 | every method entry comes from a non-static method with a non-null name, typed by its return type and described by its first `@return` text or "", and every such method gives its entry |
| Parser.ReturnText | jaxrs-doclet/src/main/java/com/hypnoticocelot/jaxrs/doclet/parser/ApiModelParser.java:118-119 | the description of a method: the text of its first `@return` tag, or "" when it has none |
| Parser.Dedup | jaxrs-doclet/src/main/java/com/hypnoticocelot/jaxrs/doclet/parser/ApiModelParser.java:104-105 | put-if-absent over the offered entries in order: an entry is appended unless its name is already present (its properties are the two lemmas below) |
| Parser.DedupKeys | jaxrs-doclet/src/main/java/com/hypnoticocelot/jaxrs/doclet/parser/ApiModelParser.java:104-105 | skipping names already present keeps every name that was offered, and each name only once |
| Parser.DedupFirstWins | jaxrs-doclet/src/main/java/com/hypnoticocelot/jaxrs/doclet/parser/ApiModelParser.java:104-105 | the entry kept for a name is the first one offered under that name, never a later one |
| Parser.ReferencedTypes | jaxrs-doclet/src/main/java/com/hypnoticocelot/jaxrs/doclet/parser/ApiModelParser.java:92-125 | the member map has distinct names, and every member type is a type of the universe |
| Parser.ReferencedKeys | jaxrs-doclet/src/main/java/com/hypnoticocelot/jaxrs/doclet/parser/ApiModelParser.java:92-125 | a name is a key iff a non-static field of the class or its superclasses, or a non-static method of the class, translates to it |
| Parser.FieldBeatsMethod | jaxrs-doclet/src/main/java/com/hypnoticocelot/jaxrs/doclet/parser/ApiModelParser.java:96-123 | when a field of the hierarchy carries a name, the entry under that name comes from a field, never from a method |
| Parser.OwnFieldWins | jaxrs-doclet/src/main/java/com/hypnoticocelot/jaxrs/doclet/parser/ApiModelParser.java:96-133 | when a field of the class itself carries a name, the entry under that name comes from the class's own fields, not from an ancestor |
| Parser.FieldTurn | jaxrs-doclet/src/main/java/com/hypnoticocelot/jaxrs/doclet/parser/ApiModelParser.java:99-107 | one turn of the field loop: a static field, a null name or a name already present leaves the map unchanged, and otherwise the entry is appended |
| Parser.MethodTurn | jaxrs-doclet/src/main/java/com/hypnoticocelot/jaxrs/doclet/parser/ApiModelParser.java:112-122 | one turn of the method loop, with the same rule and the `@return` description |
| Parser.ApiModelParser.FindReferencedTypes | jaxrs-doclet/src/main/java/com/hypnoticocelot/jaxrs/doclet/parser/ApiModelParser.java:92-125 | the two loops build exactly the member map of the class: fields of the hierarchy first, then the class's own methods, first name wins |
| Parser.Members | jaxrs-doclet/src/main/java/com/hypnoticocelot/jaxrs/doclet/parser/ApiModelParser.java:60 | the members visited for a type have distinct names and valid types |
| Parser.ClassifyCases | jaxrs-doclet/src/main/java/com/hypnoticocelot/jaxrs/doclet/parser/ApiModelParser.java:141-152 | the property keeps the member's description; it is the enum property with the enum constants iff the member type's declaration is an enum, and otherwise the typed property with the translated type name and, exactly when there is a first type argument, that argument's translated name |
| Parser.ElementsOf | jaxrs-doclet/src/main/java/com/hypnoticocelot/jaxrs/doclet/parser/ApiModelParser.java:135-156 | the element map has the same key set as the member map, and each key holds the enum property (enum constants, description) when the member type's declaration is an enum, else the typed property with the translated type name and the translated first type argument |
| Parser.ElementsOfStep | jaxrs-doclet/src/main/java/com/hypnoticocelot/jaxrs/doclet/parser/ApiModelParser.java:137-153 | one more loop turn puts the next member's property under its name |
| Parser.ApiModelParser.FindReferencedElements | jaxrs-doclet/src/main/java/com/hypnoticocelot/jaxrs/doclet/parser/ApiModelParser.java:135-156 | the loop builds exactly the element map of the member map |
| Parser.ElementsEmpty | jaxrs-doclet/src/main/java/com/hypnoticocelot/jaxrs/doclet/parser/ApiModelParser.java:61-62 | the element map is empty iff the type has no members |
| Parser.ModelOf | jaxrs-doclet/src/main/java/com/hypnoticocelot/jaxrs/doclet/parser/ApiModelParser.java:63 | the stored model has the translated type name as id and one property per member name |
| Parser.Walk | jaxrs-doclet/src/main/java/com/hypnoticocelot/jaxrs/doclet/parser/ApiModelParser.java:42-68 | a visit only appends stored types and never increases the number of unused names, which is what makes the recursion terminate |
| Parser.WalkHolder | jaxrs-doclet/src/main/java/com/hypnoticocelot/jaxrs/doclet/parser/ApiModelParser.java:160-164 | visiting a member type and then its first type argument only appends stored types |
| Parser.WalkAll | jaxrs-doclet/src/main/java/com/hypnoticocelot/jaxrs/doclet/parser/ApiModelParser.java:158-166 | visiting the members in order only appends stored types |
| Parser.GrowsByOne | jaxrs-doclet/src/main/java/com/hypnoticocelot/jaxrs/doclet/parser/ApiModelParser.java:63-64 | storing a model under a fresh name strictly decreases the number of unused names before the nested visits start |
| Parser.WalkOpens | jaxrs-doclet/src/main/java/com/hypnoticocelot/jaxrs/doclet/parser/ApiModelParser.java:50-65 | a non-terminal, unstored type with members is stored first, and then its members are visited |
| Parser.WalkAllCons | jaxrs-doclet/src/main/java/com/hypnoticocelot/jaxrs/doclet/parser/ApiModelParser.java:159-165 | the nested visits take the first member and its type argument, then the rest, and stop at the first exception |
| Parser.WalkStores | jaxrs-doclet/src/main/java/com/hypnoticocelot/jaxrs/doclet/parser/ApiModelParser.java:50-65 | a visit stores something iff the type is non-terminal, has members and its name is not yet stored, and then the first stored type is that type; otherwise the stored types are unchanged |
| Parser.WalkSound | jaxrs-doclet/src/main/java/com/hypnoticocelot/jaxrs/doclet/parser/ApiModelParser.java:50-65 | every type a visit stores is non-terminal with members, and distinct stored names stay distinct |
| Parser.WalkHolderSound | jaxrs-doclet/src/main/java/com/hypnoticocelot/jaxrs/doclet/parser/ApiModelParser.java:160-164 | the same for a member type and its type argument |
| Parser.WalkAllSound | jaxrs-doclet/src/main/java/com/hypnoticocelot/jaxrs/doclet/parser/ApiModelParser.java:158-166 | the same for all members |
| Parser.WalkClosed | jaxrs-doclet/src/main/java/com/hypnoticocelot/jaxrs/doclet/parser/ApiModelParser.java:42-68 | after a visit, the visited type is handled (terminal, memberless or stored by name), and so are the member types and first type arguments of every type the visit stored |
| Parser.WalkHolderClosed | jaxrs-doclet/src/main/java/com/hypnoticocelot/jaxrs/doclet/parser/ApiModelParser.java:160-164 | after the nested visit of one member, the member type and its type argument are handled, and the stored types are closed |
| Parser.WalkAllClosed | jaxrs-doclet/src/main/java/com/hypnoticocelot/jaxrs/doclet/parser/ApiModelParser.java:158-166 | after the nested visits, every member is handled, and the stored types are closed |
| Parser.WalkSucceeds | jaxrs-doclet/src/main/java/com/hypnoticocelot/jaxrs/doclet/parser/ApiModelParser.java:54-56 | when no type's translated name is null, a visit never throws |
| Parser.WalkHolderSucceeds | jaxrs-doclet/src/main/java/com/hypnoticocelot/jaxrs/doclet/parser/ApiModelParser.java:160-164 | the same for a member type and its type argument |
| Parser.WalkAllSucceeds | jaxrs-doclet/src/main/java/com/hypnoticocelot/jaxrs/doclet/parser/ApiModelParser.java:159-165 | the same for all members |
| Parser.ParseSucceeds | jaxrs-doclet/src/main/java/com/hypnoticocelot/jaxrs/doclet/parser/ApiModelParser.java:37-40 | `parse` from an empty collection returns normally whenever the translator names every type |
| Parser.ParseOutcome | jaxrs-doclet/src/main/java/com/hypnoticocelot/jaxrs/doclet/parser/ApiModelParser.java:37-40 | after a successful `parse` from an empty collection, model ids are pairwise distinct, every stored type is non-terminal with members, the root is handled, every stored type's members are handled, and a root that produces a model is stored first |
| Parser.DistinctModels | jaxrs-doclet/src/main/java/com/hypnoticocelot/jaxrs/doclet/parser/ApiModelParser.java:54-63 | distinct translated names of the stored types give models with distinct ids |
| Parser.ModelsSnoc | jaxrs-doclet/src/main/java/com/hypnoticocelot/jaxrs/doclet/parser/ApiModelParser.java:63 | storing one more type appends exactly its model to the collection |
| Parser.ModelsGrow | jaxrs-doclet/src/main/java/com/hypnoticocelot/jaxrs/doclet/parser/ApiModelParser.java:63 | appending stored types only appends models |
| Parser.ApiModelParser.constructor | jaxrs-doclet/src/main/java/com/hypnoticocelot/jaxrs/doclet/parser/ApiModelParser.java:30-35 | the parser keeps its translator and root type and starts with no models |
| Parser.ApiModelParser.Parse | jaxrs-doclet/src/main/java/com/hypnoticocelot/jaxrs/doclet/parser/ApiModelParser.java:37-40 | `parse` visits only the root type and returns exactly the models stored by that visit, and it only adds to the collection |
| Parser.ApiModelParser.ParseModel | jaxrs-doclet/src/main/java/com/hypnoticocelot/jaxrs/doclet/parser/ApiModelParser.java:42-68 | the method throws iff the walk does, and otherwise the stored types are those of the walk, with `models` their models in insertion order |
| Parser.ApiModelParser.AddModel | jaxrs-doclet/src/main/java/com/hypnoticocelot/jaxrs/doclet/parser/ApiModelParser.java:62-65 | for an opened type with members, storing its model and walking its member types throws iff the walk does, and otherwise leaves exactly the types of the walk stored |
| Parser.ApiModelParser.ParseNestedModels | jaxrs-doclet/src/main/java/com/hypnoticocelot/jaxrs/doclet/parser/ApiModelParser.java:158-166 | the loop visits each member type and then its first type argument, exactly as the nested walk does, and stops at the first exception |
| Doclet.Defaults | jaxrs-doclet/src/main/java/com/hypnoticocelot/jaxrs/doclet/DocletOptions.java:20-51 | the default option values: both base paths `http://localhost:8080`, version `0`, zip path `n/a`, the three opaque types, the two opaque packages, the two error tags, the two excluded annotations and models on |
| Doclet.DocletOptions.constructor | jaxrs-doclet/src/main/java/com/hypnoticocelot/jaxrs/doclet/DocletOptions.java:20-66 | a fresh object holds the default base paths, version, zip path, opaque types and packages, error tags, excluded annotations and `parseModels` true, and the XML, Jackson, name-based translator chain |
| Doclet.ApplyOption | jaxrs-doclet/src/main/java/com/hypnoticocelot/jaxrs/doclet/DocletOptions.java:70-102 | one option fails iff it is `-d` with a path that is not a directory, with that message, and an unknown key changes nothing |
| Doclet.DocletOptions.ApplyOne | jaxrs-doclet/src/main/java/com/hypnoticocelot/jaxrs/doclet/DocletOptions.java:70-102 | one loop turn updates the fields exactly as one option does, and leaves the translator alone |
| Doclet.DocletOptions.Parse | jaxrs-doclet/src/main/java/com/hypnoticocelot/jaxrs/doclet/DocletOptions.java:68-104 | a fresh object whose fields are the options folded over the defaults, or the `-d` exception when the fold fails |
| Doclet.ParseFrom | jaxrs-doclet/src/main/java/com/hypnoticocelot/jaxrs/doclet/DocletOptions.java:70-102 | the options applied in order to a starting value, stopping at the first exception; the lemmas below state what it yields |
| Doclet.ParseOptions | jaxrs-doclet/src/main/java/com/hypnoticocelot/jaxrs/doclet/DocletOptions.java:68-104 | `parse`: the fold started from the defaults |
| Doclet.ParseFromStep | jaxrs-doclet/src/main/java/com/hypnoticocelot/jaxrs/doclet/DocletOptions.java:70-102 | the fold over one more option is that option applied to the fold so far |
| Doclet.ParseStopsAtFailure | jaxrs-doclet/src/main/java/com/hypnoticocelot/jaxrs/doclet/DocletOptions.java:72-73 | once a prefix of the options throws, the whole parse throws |
| Doclet.ParseFailsOnlyOnDirectory | jaxrs-doclet/src/main/java/com/hypnoticocelot/jaxrs/doclet/DocletOptions.java:71-73 | parsing throws iff some `-d` names a path that is not a directory |
| Doclet.ApplyOptionSingle | jaxrs-doclet/src/main/java/com/hypnoticocelot/jaxrs/doclet/DocletOptions.java:74-81 | a single-valued field becomes `option[1]` when its key is given, and otherwise keeps its value |
| Doclet.LastOccurrenceWins | jaxrs-doclet/src/main/java/com/hypnoticocelot/jaxrs/doclet/DocletOptions.java:74-81 | each single-valued field ends as `option[1]` of its key's last occurrence, or its starting value when the key never occurs |
| Doclet.ApplyOptionList | jaxrs-doclet/src/main/java/com/hypnoticocelot/jaxrs/doclet/DocletOptions.java:83-99 | a list field changes only for its own key, and then gains all arguments or the `addOption` elements |
| Doclet.ArgumentsAppended | jaxrs-doclet/src/main/java/com/hypnoticocelot/jaxrs/doclet/DocletOptions.java:84-92 | `-excludeAnnotationClasses` and `-errorTags` end as their starting lists followed by all arguments of all their occurrences, in order |
| Doclet.ApplyOptionSplitList | jaxrs-doclet/src/main/java/com/hypnoticocelot/jaxrs/doclet/DocletOptions.java:94-99 | an opaque-list option appends the split elements of its first argument only, and an option without arguments appends nothing |
| Doclet.SplitArgumentsAppended | jaxrs-doclet/src/main/java/com/hypnoticocelot/jaxrs/doclet/DocletOptions.java:94-111 | each opaque list ends as its starting list followed by the split first arguments of its occurrences, in order |
| Doclet.SplitArgumentsClean | jaxrs-doclet/src/main/java/com/hypnoticocelot/jaxrs/doclet/DocletOptions.java:107-116 | no element added to an opaque list is empty, contains a comma or has surrounding whitespace |
| Doclet.ApplyOptionParseModels | jaxrs-doclet/src/main/java/com/hypnoticocelot/jaxrs/doclet/DocletOptions.java:87-88 | `-disableModels` clears the flag, and no other option touches it |
| Doclet.ModelsDisabled | jaxrs-doclet/src/main/java/com/hypnoticocelot/jaxrs/doclet/DocletOptions.java:87-88 | model parsing stays on iff it started on and `-disableModels` never occurs |
| Doclet.ParsedFromDefaults | jaxrs-doclet/src/main/java/com/hypnoticocelot/jaxrs/doclet/DocletOptions.java:68-104 | after a successful parse, each default list is a prefix of the parsed list, the opaque lists gain only clean elements, and models are off iff `-disableModels` occurs |
| Doclet.AddOption | jaxrs-doclet/src/main/java/com/hypnoticocelot/jaxrs/doclet/DocletOptions.java:107-112 | `addOption` only appends, appends clean elements, and leaves the list unchanged when there is no argument |
| Doclet.SplitElements | jaxrs-doclet/src/main/java/com/hypnoticocelot/jaxrs/doclet/DocletOptions.java:114-116 | every element is non-empty, trimmed and free of commas |
| Doclet.SplitJoin | jaxrs-doclet/src/main/java/com/hypnoticocelot/jaxrs/doclet/DocletOptions.java:114-116 | splitting the comma-join of clean elements gives the elements back |
| Doclet.IsWhitespace | jaxrs-doclet/src/main/java/com/hypnoticocelot/jaxrs/doclet/DocletOptions.java:115 | the characters `trimResults()` cuts: Guava's `CharMatcher.whitespace()`, that is tab to carriage return, space, U+0085, U+00A0, U+1680, U+2000 to U+200A, U+2028, U+2029, U+202F, U+205F and U+3000 |
| Doclet.Trim | jaxrs-doclet/src/main/java/com/hypnoticocelot/jaxrs/doclet/DocletOptions.java:115 | the trimmed piece is a slice of the input with only whitespace cut at both ends, and it has no whitespace at either end |
| Doclet.TrimTrimmed | jaxrs-doclet/src/main/java/com/hypnoticocelot/jaxrs/doclet/DocletOptions.java:115 | trimming is the identity on a trimmed string |
| Doclet.Pieces | jaxrs-doclet/src/main/java/com/hypnoticocelot/jaxrs/doclet/DocletOptions.java:115 | splitting on commas gives at least one piece, and no piece contains a comma |
| Doclet.PiecesOfJoin | jaxrs-doclet/src/main/java/com/hypnoticocelot/jaxrs/doclet/DocletOptions.java:115 | splitting the comma-join of comma-free pieces gives the pieces back |
| Doclet.TrimAndOmit | jaxrs-doclet/src/main/java/com/hypnoticocelot/jaxrs/doclet/DocletOptions.java:115 | every kept piece is non-empty and trimmed, and clean when the pieces were comma-free |
| Doclet.KeptTrimmed | jaxrs-doclet/src/main/java/com/hypnoticocelot/jaxrs/doclet/DocletOptions.java:115 | the trim a piece contributes, placed before trimmed non-empty results, keeps every result non-empty and trimmed |
| Doclet.KeptClean | jaxrs-doclet/src/main/java/com/hypnoticocelot/jaxrs/doclet/DocletOptions.java:115 | the trim a comma-free piece contributes is clean |
| Doclet.TrimAndOmitConcat | jaxrs-doclet/src/main/java/com/hypnoticocelot/jaxrs/doclet/DocletOptions.java:115 | the pieces are handled left to right: trimming and omitting a concatenation concatenates the results |
| Doclet.TrimAndOmitSnoc | jaxrs-doclet/src/main/java/com/hypnoticocelot/jaxrs/doclet/DocletOptions.java:115 | one more piece adds its trim after the earlier results exactly when that trim is non-empty |
| Doclet.TrimAndOmitMembers | jaxrs-doclet/src/main/java/com/hypnoticocelot/jaxrs/doclet/DocletOptions.java:115 | a string is kept iff it is non-empty and the trim of some piece |
| Doclet.TrimAndOmitClean | jaxrs-doclet/src/main/java/com/hypnoticocelot/jaxrs/doclet/DocletOptions.java:115 | pieces that are already non-empty and trimmed are kept as they are |

## Left out

- The javadoc API (`Type`, `ClassDoc`, `FieldDoc`, `MethodDoc`, `Tag`, `ParameterizedType`) is a finite table. `AnnotationHelper.isPrimitive` is the `isPrimitive` flag of a type. `AnnotationHelper` is not part of this model.
- A superclass link must point to a declaration with a smaller index. Acyclic class hierarchies, the only ones Java allows, can always be numbered that way.
- Enum constants are their names. A null element inside an array the javadoc API returns cannot be written down.
- The translator implementations (`FirstNotNullTranslator`, `AnnotationAwareTranslator`, `NameBasedTranslator`) are not part of this model. The walker takes the translator as three functions. The options record the default chain only as its configuration (`Doclet.DefaultTranslatorChain`).
- `Model` and `Property` are not part of this model; they are datatypes here. The `LinkedHashSet` of models is a sequence in insertion order. This relies on `Model.equals` never treating models with different ids as equal.
- `trimResults()` trims the Unicode White_Space characters that Guava's `CharMatcher.whitespace()` matches (`Doclet.IsWhitespace`). Older Guava releases that also matched U+180E are not modelled.
- The `HashMap` of elements has no defined iteration order, so it is a `map`.
- The console output at the end of `parseModel` is left out.
- `Recorder`, `ObjectMapperRecorder`, the setters and the getters are left out. The getters are read as fields.
- The `-d` branch does not build a `File`. Whether the path is a directory is the `isDirectory` parameter of the parse.
- `Doclet.DocletOptions.Parse` requires every option to have a key, and `option[1]` for the single-valued keys and `-d`. The Java code throws an array-index exception in those cases, and the model does not represent it.
- Parser.ApiModelParser.constructor: the opaque type and package lists are copied from the options when the parser is built. The Java class reads them through the options on every call. The two agree because nothing changes the options during a parse.
- Parser.ApiModelParser.ParseModel: when the method throws (`false`), its contract says nothing about the models stored before the exception.
- Parser.ApiModelParser.AllFields returns the extended list instead of appending to the caller's list in place.
- Parser.Walk checks that the type has members, where `parseModel` checks that the element map is non-empty. `Parser.ElementsEmpty` proves the two tests equivalent.
