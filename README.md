# CourseLibrary request shaping, modelled in Dafny

This project models the request-shaping layer of the CourseLibrary author/course
REST API (ASP.NET Core, C#) and proves properties of that model. The layer has six parts:

- **Sorting.** `ApplySort` turns a comma-separated `orderBy` parameter into the ordering text
  that is handed to the query provider. The property-mapping table sends each client-facing
  name to destination properties and may revert the direction.
- **Data shaping.** `ShapeData` resolves a `fields` list against a type's properties once. It
  then projects every object into an insertion-ordered record.
- **Field validation.** `TypeHasProperties` is the boolean pre-check the controllers run
  before shaping.
- **AuthorsController.** This covers `GetAuthors`, `GetAuthor`, the choice of representation
  from the Accept header, the collection and per-author HATEOAS links, and the paging URIs.
- **AuthorsResourceParameters.** A query-parameter class whose `PageSize` setter caps the
  size at 20.
- **ArrayModelBinder.** It binds "id1,id2,..." route values to an array.

Modules:

| file | module | what it holds |
|---|---|---|
| `wrappers.dfy` | `Wrappers` | `Option` (a nullable reference) and `Result` (a value or a thrown exception) |
| `sequences.dfy` | `Sequences` | `Map` over sequences and small sequence facts |
| `strings.dfy` | `Strings` | the .NET string operations used: `IsNullOrWhiteSpace`, `Trim`, `Split` (empty pieces kept), `string.Join`, ordinal and ordinal-ignore-case comparison, `EndsWith`, `IndexOf`, `LastIndexOf` |
| `queryable_extensions.dfy` | `QueryableExtensions` | `ApplySort` as a method with loops, proved against the functions `SortKeys` and `OrderingString` |
| `enumerable_extensions.dfy` | `EnumerableExtensions` | `ShapeData` as loops, proved against `Resolve`, `Project` and `ProjectAll` |
| `property_checker.dfy` | `PropertyChecker` | `TypeHasProperties` as a loop, proved against the predicate `FieldsExist` |
| `resource_parameters.dfy` | `ResourceParameters` | `AuthorsResourceParameters` as a class with the clamping setter |
| `authors_controller.dfy` | `AuthorsController` | outcomes of `GetAuthors` and `GetAuthor`, media-type selection, link builders |
| `array_model_binder.dfy` | `ArrayModelBinder` | `ModelBindingContext` as a class, with `BindModel` setting Model and Result |

Modelling choices:

- **Reflection.** A type is the sequence of its public property names in declaration order.
  An object is a map from property name to value. An `ExpandoObject` is a list of
  (key, value) entries in insertion order. Its `Add` throws on a key it already holds, and
  keys are compared ordinally.
- **Case-insensitive comparison.** `OrdinalIgnoreCase` and `InvariantCultureIgnoreCase`
  comparisons use ASCII upper-casing.
- **C# `int`.** It is `Int32`. The page number ± 1 of the paging links wraps around
  explicitly.
- **Exceptions.** A thrown exception is a `Failure`/`Fault` value carrying the exception's
  cause.
- **`Url.Link`.** A link is the route name and the ordered route values it is called with.
- **`PageSize` cap.** It holds only after setter writes. It is not an invariant of the class,
  because the backing field `_pageSize` is public (`BypassBreaksCap`).
- **`OrderBy` and `Fields`.** The controller reads them from `AuthorsResourceParameters`, but
  the class file does not declare them. The model adds both as nullable strings.
- **Search text in paging links.** `SearchQuery` binds only from the query key "q"
  (`AuthorsResourceParameters.cs:10-11`), but the paging links pass it back as "searchQuery"
  (`AuthorsController.cs:149,160,172`). A followed paging link therefore loses the search. The
  model builds the links as the code does, and `PagingLinksDropSearch` states the mismatch.
- **Outdated test expectation.** The repository test at
  `CourseLibrary.Test/CourseLibraryRepositoryTests.cs:65` expects "name desc" to order last
  names ascending. The code orders both destination properties descending, and the model
  follows the code (`NameDescScenario`).

## Model

| member | source | states |
|---|---|---|
| QueryableExtensions.ApplySort | CourseLibrary.API/Helpers/IQueryableExtensions.cs:8-76 | null source, then null dictionary, throw ArgumentNullException before orderBy is read; blank orderBy returns the source unordered; otherwise the result is the ordering text of `SortKeys` of the comma pieces, or the exception of the first clause that fails |
| QueryableExtensions.Lookup | CourseLibrary.API/Helpers/IQueryableExtensions.cs:47-53 | reference definition of `ContainsKey` followed by the indexer on the mapping table, keys compared ignoring case; its meaning is stated by `LookupMeaning` |
| QueryableExtensions.LookupMeaning | CourseLibrary.API/Helpers/IQueryableExtensions.cs:47-53 | the lookup finds nothing iff no key equals the name ignoring case; otherwise it yields the value stored under a key that equals the name ignoring case |
| QueryableExtensions.ClauseKeys | CourseLibrary.API/Helpers/IQueryableExtensions.cs:36-72 | reference definition of one clause: trim, direction from " desc", name up to the first space, lookup (missing key throws KeyMappingMissing, null entry ArgumentNull), revert, then one level per destination property; its cases are stated by `ClauseWithDirection`, `TrimmedBareClause` and `TrailingCommaFails` |
| QueryableExtensions.DirectedKeys | CourseLibrary.API/Helpers/IQueryableExtensions.cs:66-72 | as many levels as destinations, the k-th level being the k-th destination property in the clause's direction |
| QueryableExtensions.SortKeys | CourseLibrary.API/Helpers/IQueryableExtensions.cs:31-73 | reference definition of the clause loop: the clause outcomes of the comma pieces combined in order, the first exception winning; stated by `SortKeysSucceeds`, `OrderByComposition` and `SortKeysAppend` |
| QueryableExtensions.OrderingString | CourseLibrary.API/Helpers/IQueryableExtensions.cs:66-72 | reference definition of the ordering text of a level list; its form is stated by `OrderingStringSnoc`, `OrderingStringAppend`, `OrderingStringBlank` and `OrderingStringEndsWithLast` |
| QueryableExtensions.AppendClause | CourseLibrary.API/Helpers/IQueryableExtensions.cs:36-72 | one pass of the clause loop: the text built so far is extended by exactly the levels of the clause (`ClauseKeys`), or the clause's exception is returned |
| QueryableExtensions.AppendLevels | CourseLibrary.API/Helpers/IQueryableExtensions.cs:66-72 | the inner loop extends the text by one level per destination property, in order, all in the clause's direction |
| QueryableExtensions.ExtendedOrdering | CourseLibrary.API/Helpers/IQueryableExtensions.cs:68-71 | extending the ordering string of earlier levels by more levels, with the blank test choosing the separator, gives the ordering string of all the levels: ", " between levels and none before the first |
| QueryableExtensions.PropertyName | CourseLibrary.API/Helpers/IQueryableExtensions.cs:43-44 | the property name is a prefix of the trimmed clause that has no space and stops at the first space |
| QueryableExtensions.ClauseWithDirection | CourseLibrary.API/Helpers/IQueryableExtensions.cs:36-63 | for a padded "name word" clause, the name is looked up as written; the direction is descending iff the word is exactly "desc", XOR revert; an unknown name throws KeyMappingMissing and a null entry throws ArgumentNull |
| QueryableExtensions.TrimmedBareClause | CourseLibrary.API/Helpers/IQueryableExtensions.cs:39-63 | a one-word clause names its property and sorts ascending before the revert |
| QueryableExtensions.ClauseFails | CourseLibrary.API/Helpers/IQueryableExtensions.cs:47-50 | a failing clause after resolved ones decides the whole result |
| QueryableExtensions.SortKeysSucceeds | CourseLibrary.API/Helpers/IQueryableExtensions.cs:34-73 | the request succeeds iff every clause resolves; no ordering is ever partial |
| QueryableExtensions.OrderByComposition | CourseLibrary.API/Helpers/IQueryableExtensions.cs:31-73 | the levels for "a,b" are the levels for a followed by those for b, and the first failure wins |
| QueryableExtensions.SortKeysAppend | CourseLibrary.API/Helpers/IQueryableExtensions.cs:34-73 | sorting by the clauses of a then b combines the two outcomes |
| QueryableExtensions.CombineAllAppend | CourseLibrary.API/Helpers/IQueryableExtensions.cs:34-73 | combining per-clause outcomes distributes over concatenation |
| QueryableExtensions.CombineAllSucceeds | CourseLibrary.API/Helpers/IQueryableExtensions.cs:34-73 | the combined outcome succeeds iff every outcome succeeds |
| QueryableExtensions.OrderingStringSnoc | CourseLibrary.API/Helpers/IQueryableExtensions.cs:68-71 | appending a level adds ", " (not before the first level) and its "<property> ascending/descending" text |
| QueryableExtensions.OrderingStringAppend | CourseLibrary.API/Helpers/IQueryableExtensions.cs:66-72 | the ordering text of two non-empty level lists is theirs joined by ", " |
| QueryableExtensions.OrderingStringBlank | CourseLibrary.API/Helpers/IQueryableExtensions.cs:69 | the text built so far is blank iff no level was added, which is what the separator test relies on |
| QueryableExtensions.OrderingStringEndsWithLast | CourseLibrary.API/Helpers/IQueryableExtensions.cs:68-71 | the ordering text ends with the last level's text |
| QueryableExtensions.SingleClause | CourseLibrary.API/Helpers/IQueryableExtensions.cs:31-34 | a request without a comma is one clause, whose outcome is the result |
| QueryableExtensions.TrailingCommaFails | CourseLibrary.API/Helpers/IQueryableExtensions.cs:47-50 | a trailing comma always throws: the empty clause names no key, and the error names "" when the rest resolves |
| QueryableExtensions.TestMappingLookups | CourseLibrary.Test/CourseLibraryRepositoryTests.cs:15-22 | the test table answers "name" and "age" whatever the case, and has no empty key |
| QueryableExtensions.NameDescScenario | CourseLibrary.API/Helpers/IQueryableExtensions.cs:39-72 | with the test table, "name desc" gives FirstName then LastName, both descending |
| QueryableExtensions.NameDescOrdering | CourseLibrary.API/Helpers/IQueryableExtensions.cs:66-72 | and the ordering text is "FirstName descending, LastName descending" |
| QueryableExtensions.NameUpperDescScenario | CourseLibrary.API/Helpers/IQueryableExtensions.cs:39 | "name DESC" sorts ascending, because the " desc" test is case-sensitive |
| QueryableExtensions.AgeScenario | CourseLibrary.API/Helpers/IQueryableExtensions.cs:59-63 | "age" gives DateOfBirth descending, because the mapping reverts |
| QueryableExtensions.AgeOrdering | CourseLibrary.API/Helpers/IQueryableExtensions.cs:66-72 | and the ordering text is "DateOfBirth descending" |
| EnumerableExtensions.ShapeData | CourseLibrary.API/Helpers/IEnumerableExtensions.cs:8-77 | the method equals the reference `Shape`: a null source throws, then the property list is resolved once, then every object is projected |
| EnumerableExtensions.Shape | CourseLibrary.API/Helpers/IEnumerableExtensions.cs:8-77 | reference definition of ShapeData: a null source throws ArgumentNull, then the property list is resolved, then every object is projected; stated by `ShapeData` and `ShapeOutcome` |
| EnumerableExtensions.Resolve | CourseLibrary.API/Helpers/IEnumerableExtensions.cs:35-53 | the resolved list holds only declared properties; its full meaning is stated by `ResolveMeaning` |
| EnumerableExtensions.Add | CourseLibrary.API/Helpers/IEnumerableExtensions.cs:69 | reference definition of `IDictionary.Add` on an ExpandoObject; stated by `AddOutcome` |
| EnumerableExtensions.AddOutcome | CourseLibrary.API/Helpers/IEnumerableExtensions.cs:69 | `Add` throws DuplicateKey exactly when the key is already in the record; otherwise the key goes last, so a record with distinct keys keeps them distinct |
| EnumerableExtensions.Project | CourseLibrary.API/Helpers/IEnumerableExtensions.cs:60-70 | reference definition of one object's record, built by `Add` in list order; stated by `ProjectEntries` |
| EnumerableExtensions.ProjectAll | CourseLibrary.API/Helpers/IEnumerableExtensions.cs:57-74 | reference definition of the outer loop: one record per object in order, the first exception winning; stated by `ProjectAllRecords` |
| EnumerableExtensions.ResolveFieldList | CourseLibrary.API/Helpers/IEnumerableExtensions.cs:35-53 | the resolution loop gives `Resolve` of the trimmed tokens |
| EnumerableExtensions.ShapeObjects | CourseLibrary.API/Helpers/IEnumerableExtensions.cs:57-74 | the outer loop gives `ProjectAll`: one record per object in order, or the first object's exception |
| EnumerableExtensions.ShapeObject | CourseLibrary.API/Helpers/IEnumerableExtensions.cs:60-70 | the inner loop gives `Project`: the property values added one by one |
| EnumerableExtensions.GetProperty | CourseLibrary.API/Helpers/IEnumerableExtensions.cs:44-45 | the lookup finds a declared property equal to the name ignoring case, and finds nothing iff no property matches |
| EnumerableExtensions.GetPropertyUnique | CourseLibrary.API/Helpers/IEnumerableExtensions.cs:44-45 | a name matching a property ignoring case finds exactly that property, so "id" gives "Id" |
| EnumerableExtensions.EmptyNameMissing | CourseLibrary.API/Helpers/IEnumerableExtensions.cs:44-50 | the empty token names no property |
| EnumerableExtensions.ResolveFields | CourseLibrary.API/Helpers/IEnumerableExtensions.cs:24-54 | the resolved list only holds declared properties |
| EnumerableExtensions.ResolveMeaning | CourseLibrary.API/Helpers/IEnumerableExtensions.cs:35-53 | resolution succeeds iff every token names a property; the list then holds the declared names in request order; otherwise the error names a token no property answers to |
| EnumerableExtensions.ProjectEntries | CourseLibrary.API/Helpers/IEnumerableExtensions.cs:63-69 | with distinct properties, the record is each property with the object's value, in list order; a repeated property throws DuplicateKey |
| EnumerableExtensions.ProjectAllRecords | CourseLibrary.API/Helpers/IEnumerableExtensions.cs:57-76 | distinct properties give one record per object, in order; a repeated property fails on the first object, and an empty source succeeds |
| EnumerableExtensions.ShapeOutcome | CourseLibrary.API/Helpers/IEnumerableExtensions.cs:8-77 | a resolution error is the result; otherwise shaping succeeds iff the source is empty or the list is distinct; every record then holds the object's values and the same key sequence |
| EnumerableExtensions.BlankFieldsShape | CourseLibrary.API/Helpers/IEnumerableExtensions.cs:24-31 | blank fields give every record all the type's properties, in declaration order |
| EnumerableExtensions.UnknownFieldFails | CourseLibrary.API/Helpers/IEnumerableExtensions.cs:37-50 | a token that names no property throws PropertyNotFound, whatever the source holds |
| EnumerableExtensions.EntriesKeys | CourseLibrary.API/Helpers/IEnumerableExtensions.cs:69 | a record's keys are the resolved property names |
| EnumerableExtensions.ValidTypeDistinct | CourseLibrary.API/Helpers/IEnumerableExtensions.cs:27-30 | a type's properties are distinct |
| PropertyChecker.TypeHasProperties | CourseLibrary.API/Services/PropertyCheckerService.cs:6-34 | the method equals `FieldsExist`: blank fields pass, otherwise every trimmed comma token must name a property ignoring case |
| PropertyChecker.FieldsExist | CourseLibrary.API/Services/PropertyCheckerService.cs:6-34 | reference definition: blank fields pass, otherwise every trimmed comma token names a property ignoring case; `TypeHasProperties` is proved equal to it and `CheckAgreesWithShapeData` ties it to ShapeData |
| PropertyChecker.CheckAgreesWithShapeData | CourseLibrary.API/Services/PropertyCheckerService.cs:22-23 | the check passes iff ShapeData's resolution throws no missing-property error |
| PropertyChecker.BlankTokenRejected | CourseLibrary.API/Services/PropertyCheckerService.cs:14-29 | an empty or white-space token makes the check fail |
| PropertyChecker.TrailingCommaRejected | CourseLibrary.API/Services/PropertyCheckerService.cs:14-29 | a trailing comma makes the check fail |
| PropertyChecker.CheckIgnoresOrderAndRepeats | CourseLibrary.API/Services/PropertyCheckerService.cs:17-30 | token lists with the same members get the same answer, whatever their order and repeats |
| PropertyChecker.FieldsIgnoreOrderAndRepeats | CourseLibrary.API/Services/PropertyCheckerService.cs:8-30 | two non-blank `fields` texts whose trimmed tokens have the same members get the same answer |
| PropertyChecker.DuplicateFieldAcceptedThenRejected | CourseLibrary.API/Services/PropertyCheckerService.cs:17-30 | a property requested twice passes the check and resolves twice; shaping then succeeds on an empty source and throws DuplicateKey on any other |
| PropertyChecker.DuplicateFieldNames | CourseLibrary.API/Services/PropertyCheckerService.cs:14-19 | "a,b" tokenizes to [a, b] for trimmed comma-free names |
| ResourceParameters.AuthorsResourceParameters.constructor | CourseLibrary.API/ResourceParameters/AuthorsResourceParameters.cs:8-14 | defaults: page 1 of size 10, no category, no search query, no ordering, no fields |
| ResourceParameters.AuthorsResourceParameters.SetPageSize | CourseLibrary.API/ResourceParameters/AuthorsResourceParameters.cs:15-19 | the setter stores the value capped at 20 and changes no other field |
| ResourceParameters.AuthorsResourceParameters.AssignPageSizeField | CourseLibrary.API/ResourceParameters/AuthorsResourceParameters.cs:14 | a direct write of the public backing field stores any value |
| ResourceParameters.Clamp | CourseLibrary.API/ResourceParameters/AuthorsResourceParameters.cs:7-18 | the stored size is at most 20, equal to the value when the value is at most 20, and 20 otherwise |
| ResourceParameters.ClampIdempotent | CourseLibrary.API/ResourceParameters/AuthorsResourceParameters.cs:17-18 | setting again the value just read changes nothing |
| ResourceParameters.ClampFixesExactlyCapped | CourseLibrary.API/ResourceParameters/AuthorsResourceParameters.cs:18 | the setter changes a value iff it is over 20; 0 and negative sizes are kept |
| ResourceParameters.SetThenReassign | CourseLibrary.API/ResourceParameters/AuthorsResourceParameters.cs:15-19 | set, read and set again leaves the capped value |
| ResourceParameters.BypassBreaksCap | CourseLibrary.API/ResourceParameters/AuthorsResourceParameters.cs:14 | a write of the public field leaves a size over 20, so the cap is not a class invariant |
| ResourceParameters.Wrap | CourseLibrary.API/Controllers/AuthorsController.cs:146-157 | C# `int` arithmetic is the exact value reduced modulo 2^32 into range |
| ResourceParameters.NextThenPreviousPage | CourseLibrary.API/Controllers/AuthorsController.cs:146-157 | the previous page of the next page is the current page, wrap-around included |
| ResourceParameters.NextPageWraps | CourseLibrary.API/Controllers/AuthorsController.cs:157 | at the largest `int`, the next page number wraps to the smallest |
| AuthorsController.PagingUris | CourseLibrary.API/Controllers/AuthorsController.cs:136-177 | all paging URIs use the GetAuthors route and differ only in the page number (+1, -1 or current); they echo page size, category, search query, ordering and fields unchanged, the search text under the route key "searchQuery" (see `PagingLinksDropSearch`) |
| AuthorsController.PagingLinksDropSearch | CourseLibrary.API/Controllers/AuthorsController.cs:143-175 | every paging link carries the search text under "searchQuery" and no route value under "q", the only key `SearchQuery` binds from (AuthorsResourceParameters.cs:10-11), so a followed paging link loses the search |
| AuthorsController.PageNumberFor | CourseLibrary.API/Controllers/AuthorsController.cs:140-169 | reference definition of the page number of a link: one less, one more or the current one, with `int` wrap-around; stated by `PagingUris`, `NextThenPreviousPage` and `NextPageWraps` |
| AuthorsController.EchoedValues | CourseLibrary.API/Controllers/AuthorsController.cs:147-151 | reference definition of the route values after the page number, in the source's order; stated by `PagingUris` |
| AuthorsController.CreateAuthorsResourceUri | CourseLibrary.API/Controllers/AuthorsController.cs:136-177 | reference definition of a paging link; stated by `PagingUris` and `PagingLinksDropSearch` |
| AuthorsController.CollectionLinks | CourseLibrary.API/Controllers/AuthorsController.cs:107-134 | reference definition of the collection links; stated by `CollectionLinksShape` and proved equal to the list `CreateLinksForAuthors` builds |
| AuthorsController.CreateLinksForAuthors | CourseLibrary.API/Controllers/AuthorsController.cs:107-134 | the list built by Add equals `CollectionLinks` |
| AuthorsController.CollectionLinksShape | CourseLibrary.API/Controllers/AuthorsController.cs:107-134 | self comes first, nextPage is present iff hasNext, previousPage iff hasPrevious, next before previous, all GET |
| AuthorsController.CreateLinksForAuthor | CourseLibrary.API/Controllers/AuthorsController.cs:265-295 | the list built by Add equals `AuthorLinks` |
| AuthorsController.AuthorLinks | CourseLibrary.API/Controllers/AuthorsController.cs:265-295 | reference definition of one author's links; stated by `AuthorLinksShape` and proved equal to the list `CreateLinksForAuthor` builds |
| AuthorsController.AuthorLinksShape | CourseLibrary.API/Controllers/AuthorsController.cs:265-295 | exactly self (GET), create_course_for_author (POST) and courses (GET), in that order, each for the author; only self carries fields, iff they are not blank |
| AuthorsController.SubTypeWithoutSuffix | CourseLibrary.API/Controllers/AuthorsController.cs:195 | the subtype up to its last '+', or all of it when it has none |
| AuthorsController.SuffixRemoved | CourseLibrary.API/Controllers/AuthorsController.cs:195 | "subtype+suffix" loses exactly its suffix |
| AuthorsController.SelectRepresentation | CourseLibrary.API/Controllers/AuthorsController.cs:195-202 | links iff the subtype ends with "hateoas" in any case; the Substring throws iff the subtype is "hateoas" alone (7 characters); the full author iff the subtype is exactly "vnd.marvin.author.full", or is that type followed by any one character and "hateoas" in any case |
| AuthorsController.HateoasRepresentation | CourseLibrary.API/Controllers/AuthorsController.cs:195-202 | "primary.hateoas" asks for links, and for the full author iff primary is exactly "vnd.marvin.author.full" |
| AuthorsController.HateoasSuffix | CourseLibrary.API/Controllers/AuthorsController.cs:195-202 | a primary type, any one character and "hateoas" in any case ask for links, and for the full author iff the primary type is the full one |
| AuthorsController.FullTypeAsksNoLinks | CourseLibrary.API/Controllers/AuthorsController.cs:195 | "vnd.marvin.author.full" itself does not end with "hateoas" |
| AuthorsController.UpperHateoasRepresentation | CourseLibrary.API/Controllers/AuthorsController.cs:195-202 | "vnd.marvin.author.full.HATEOAS" asks for the full author with links |
| AuthorsController.AnySeparatorRepresentation | CourseLibrary.API/Controllers/AuthorsController.cs:198-202 | "vnd.marvin.author.fullXhateoas" asks for the full author with links: the cut-off character is not read |
| AuthorsController.NoSeparatorRepresentation | CourseLibrary.API/Controllers/AuthorsController.cs:198-202 | "vnd.marvin.author.fullhateoas" asks for the friendly author with links: the cut takes the type's last letter |
| AuthorsController.PluralAuthorsRepresentation | CourseLibrary.API/Controllers/AuthorsController.cs:195-202 | "vnd.marvin.authors" asks for the friendly author without links |
| AuthorsController.PlainRepresentation | CourseLibrary.API/Controllers/AuthorsController.cs:195-202 | a subtype not ending in s/S asks for no links, and for the full author iff it is exactly the full type |
| AuthorsController.HateoasAloneFails | CourseLibrary.API/Controllers/AuthorsController.cs:199 | "hateoas" and "HATEOAS" make the Substring throw |
| AuthorsController.JsonMediaType | CourseLibrary.API/Controllers/AuthorsController.cs:179-184 | application/json: friendly author without links |
| AuthorsController.MarvinHateoasMediaType | CourseLibrary.API/Controllers/AuthorsController.cs:179-184 | vnd.marvin.hateoas+json: friendly author with links |
| AuthorsController.FullAuthorMediaType | CourseLibrary.API/Controllers/AuthorsController.cs:179-184 | vnd.marvin.author.full+json: full author without links |
| AuthorsController.FullAuthorHateoasMediaType | CourseLibrary.API/Controllers/AuthorsController.cs:179-184 | vnd.marvin.author.full.hateoas+json: full author with links |
| AuthorsController.FriendlyAuthorMediaType | CourseLibrary.API/Controllers/AuthorsController.cs:179-184 | vnd.marvin.author.friendly+json: friendly author without links |
| AuthorsController.FriendlyAuthorHateoasMediaType | CourseLibrary.API/Controllers/AuthorsController.cs:179-184 | vnd.marvin.author.friendly.hateoas+json: friendly author with links |
| AuthorsController.GetAuthor | CourseLibrary.API/Controllers/AuthorsController.cs:185-263 | reference definition of the action's outcome; stated by `GetAuthorValidationOrder` and `GetAuthorBody` |
| AuthorsController.ShapeAuthor | CourseLibrary.API/Controllers/AuthorsController.cs:244-262 | reference definition of shaping the found author and adding "links"; stated by `ShapeAuthorOutcome` |
| AuthorsController.GetAuthorValidationOrder | CourseLibrary.API/Controllers/AuthorsController.cs:189-234 | an unparseable media type is a 400 before anything else; a bad subtype throws; invalid fields for the chosen DTO are a 400 whether or not the author exists; valid fields and no author are a 404 |
| AuthorsController.GetAuthorBody | CourseLibrary.API/Controllers/AuthorsController.cs:236-262 | a found author is the chosen DTO shaped by the fields, plus a "links" entry with its three links iff links were asked for; a repeated field throws DuplicateKey |
| AuthorsController.ShapeAuthorOutcome | CourseLibrary.API/Controllers/AuthorsController.cs:244-259 | shaping one author and adding "links" gives its entries followed by the links, or throws on a repeated field |
| AuthorsController.Get | CourseLibrary.API/Controllers/AuthorsController.cs:88 | TryGetValue finds nothing iff the key is absent, and otherwise a value stored under the key |
| AuthorsController.GetEntries | CourseLibrary.API/Controllers/AuthorsController.cs:88-92 | a shaped author answers a resolved property with the object's value and any other key with nothing |
| AuthorsController.GetAppendNew | CourseLibrary.API/Controllers/AuthorsController.cs:88-93 | a key added last is found with its value |
| AuthorsController.WithLinks | CourseLibrary.API/Controllers/AuthorsController.cs:84-95 | reference definition of the per-author step, with the exceptions of a missing, null or non-Guid "Id" and of a null "links"; stated by `WithLinksAdds` and `WithLinksIdempotent` |
| AuthorsController.WithLinksAll | CourseLibrary.API/Controllers/AuthorsController.cs:84-95 | reference definition of the step over the page; stated by `WithLinksAllPointwise` and `WithLinksAllFirstFailure` |
| AuthorsController.WithLinksAdds | CourseLibrary.API/Controllers/AuthorsController.cs:84-95 | an author without "links" and with a Guid "Id" gets exactly its three links appended under "links" |
| AuthorsController.WithLinksIdempotent | CourseLibrary.API/Controllers/AuthorsController.cs:84-95 | running the step again on its result changes nothing |
| AuthorsController.WithLinksAllPointwise | CourseLibrary.API/Controllers/AuthorsController.cs:84-95 | the step succeeds on the page iff it succeeds on each author, giving one result per author, in order |
| AuthorsController.WithLinksAllFirstFailure | CourseLibrary.API/Controllers/AuthorsController.cs:84-95 | a failing step fails with the exception of the first author whose links cannot be added, every author before it succeeding |
| AuthorsController.GetAuthors | CourseLibrary.API/Controllers/AuthorsController.cs:44-105 | reference definition of the action's outcome; stated by `GetAuthorsValidationOrder`, `GetAuthorsBody`, `MissingIdFault` and `RepeatedFieldFault` |
| AuthorsController.GetAuthorsValidationOrder | CourseLibrary.API/Controllers/AuthorsController.cs:49-67 | an unmapped orderBy is a bare 400, then invalid fields are a 400 whose detail holds the fields, whatever the repository returns; valid requests are never a 400 or 404 |
| AuthorsController.LinkedRecords | CourseLibrary.API/Controllers/AuthorsController.cs:84-95 | every shaped author with a Guid "Id" gets its links |
| AuthorsController.GetAuthorsBody | CourseLibrary.API/Controllers/AuthorsController.cs:69-104 | a valid request whose fields include "Id" once is a 200: the metadata copies the page's four figures, the links are the collection links, and the value is each author's requested properties plus its links, in page order |
| AuthorsController.MissingIdFault | CourseLibrary.API/Controllers/AuthorsController.cs:84-95 | fields without "Id" make a non-empty page throw KeyNotFound on "Id"; an empty page is still a 200 |
| AuthorsController.RepeatedFieldFault | CourseLibrary.API/Controllers/AuthorsController.cs:82 | a field requested twice makes shaping a non-empty page throw DuplicateKey |
| ArrayModelBinder.ModelBindingContext.BindModel | CourseLibrary.API/Helpers/ArrayModelBinder.cs:9-43 | a non-enumerable type gives Failed and no model; a blank value gives Success(null); a model type without a generic argument throws IndexOutOfRange and changes nothing; otherwise a converter exception changes nothing, and else a new array of the converted tokens is the Model and the Result's model |
| ArrayModelBinder.ModelBindingContext.constructor | CourseLibrary.API/Helpers/ArrayModelBinder.cs:9-30 | a new context holds the given metadata, name, value and converter, with no Model and no Result |
| ArrayModelBinder.ConvertAll | CourseLibrary.API/Helpers/ArrayModelBinder.cs:33 | conversion succeeds iff every token converts, and then holds one converted value per token, in order |
| ArrayModelBinder.RemoveEmptyEntries | CourseLibrary.API/Helpers/ArrayModelBinder.cs:33 | no kept piece is empty, and there are no more pieces than before |
| ArrayModelBinder.RemoveEmptyEntriesMembers | CourseLibrary.API/Helpers/ArrayModelBinder.cs:33 | a piece is kept iff it is a piece and not empty |
| ArrayModelBinder.Kept | CourseLibrary.API/Helpers/ArrayModelBinder.cs:33 | reference definition of the split with RemoveEmptyEntries; stated by `RemoveEmptyEntriesMembers`, `KeptAround` and `KeptAdjacentCommas` |
| ArrayModelBinder.KeptAround | CourseLibrary.API/Helpers/ArrayModelBinder.cs:33 | a non-empty comma-free piece between two commas survives as one piece, between the pieces on either side |
| ArrayModelBinder.KeptAdjacentCommas | CourseLibrary.API/Helpers/ArrayModelBinder.cs:33 | two adjacent commas leave only the pieces on either side |
| ArrayModelBinder.Tokens | CourseLibrary.API/Helpers/ArrayModelBinder.cs:33 | each token is trimmed, and there are at most as many tokens as comma pieces |
| ArrayModelBinder.WhiteSpacePieceConverted | CourseLibrary.API/Helpers/ArrayModelBinder.cs:33 | a white-space piece between commas is not removed; it reaches the converter as "" |
| ArrayModelBinder.EmptyPieceDropped | CourseLibrary.API/Helpers/ArrayModelBinder.cs:33 | two adjacent commas contribute no token |
| ArrayModelBinder.JoinedTokens | CourseLibrary.API/Helpers/ArrayModelBinder.cs:33 | non-empty, comma-free, trimmed texts joined with "," tokenize back to themselves |
| ArrayModelBinder.BindRoundTrip | CourseLibrary.API/Controllers/AuthorCollectionsController.cs:54 | ids joined with "," are not blank and bind back to the same ids in order, when each id's text is non-empty, comma-free and trimmed and the converter inverts it |
| Strings.Trim | CourseLibrary.API/Helpers/IQueryableExtensions.cs:36 | the result has no white space at either end, and is empty iff the input is all white space |
| Strings.TrimPadded | CourseLibrary.API/Helpers/IEnumerableExtensions.cs:39 | Trim removes white-space padding on both sides and nothing else |
| Strings.IsNullOrWhiteSpace | CourseLibrary.API/Helpers/IQueryableExtensions.cs:69 | reference definition: null, or white space only; `TrimBlank` and `OrderingStringBlank` state what its callers rely on |
| Strings.JoinSplit | CourseLibrary.API/Controllers/AuthorCollectionsController.cs:54 | joining the split pieces with the separator gives back the string |
| Strings.Split | CourseLibrary.API/Helpers/IQueryableExtensions.cs:31 | at least one piece, and no piece holds the separator; with `Join` it round-trips (`JoinSplit`, `SplitJoin`) |
| Strings.Join | CourseLibrary.API/Controllers/AuthorCollectionsController.cs:54 | reference definition of `string.Join`; the inverse of `Split` by `JoinSplit` and `SplitJoin` |
| Strings.SplitJoin | CourseLibrary.API/Controllers/AuthorCollectionsController.cs:54 | splitting a join of separator-free pieces gives back the pieces |
| Strings.SplitAppend | CourseLibrary.API/Helpers/IQueryableExtensions.cs:31 | a separator splits the string into the pieces of its two sides |
| Strings.IndexOf | CourseLibrary.API/Helpers/IQueryableExtensions.cs:43 | -1 iff the character is absent; otherwise the first position of the character |
| Strings.LastIndexOf | CourseLibrary.API/Controllers/AuthorsController.cs:195 | -1 iff the character is absent; otherwise its last position |
| Strings.EndsWith | CourseLibrary.API/Helpers/IQueryableExtensions.cs:39 | reference definition of ordinal `EndsWith`; its effect on a clause is stated by `ClauseWithDirection` and `NameUpperDescScenario` |
| Strings.EndsWithIgnoreCase | CourseLibrary.API/Controllers/AuthorsController.cs:195 | reference definition: `EndsWith` after ASCII upper-casing both sides; its effect is stated by `SelectRepresentation` and the representation lemmas |
| Strings.TrimBlank | CourseLibrary.API/Helpers/IQueryableExtensions.cs:36 | trimming leaves nothing iff the text is white space only |

## Left out

- The Dynamic LINQ call `source.OrderBy(orderByString)` is a foreign library. The model returns
  the source with the ordering text it would be ordered by.
- Reflection and `ExpandoObject` are replaced by property-name lists and entry lists. Property
  names are assumed distinct ignoring case, so the ambiguous-match exception is not modelled.
- Culture-sensitive comparison is not modelled. `InvariantCultureIgnoreCase` and
  `OrdinalIgnoreCase` are modelled by ASCII upper-casing, and the culture-sensitive
  `EndsWith(" desc")` and `IndexOf(" ")` by ordinal comparison.
- The following are inputs, not models:
  - the repository, AutoMapper, `PropertyMappingService.ValidMappingExistsFor` (a boolean
    input to `GetAuthors`), `MediaTypeHeaderValue.TryParse` (an optional parsed media type)
    and `TypeDescriptor` converters (an abstract partial function);
  - `PagedList`, whose figures and `HasNext`/`HasPrevious` come with the page;
  - `Url.Link`, modelled by its arguments.
- `ProblemDetailsFactory`, response headers, JSON serialization, HEAD handling and async/await
  are left out. The problem detail is modelled by its `detail` text, and the X-Pagination
  header by the metadata value.
- The `Select` in `GetAuthors` is lazy, so the link step runs while the response is
  serialized. The model runs it eagerly and reports its first exception as the action's
  fault.
- The dictionaries that `GetAuthor` and `GetAuthors` `Add` to in place are modelled on
  values. `Add` returns the extended record, and the actions are functions of their inputs.
- `ObjectExtensions.ShapeData`, the single-object overload used by `GetAuthor`, is not part of
  this model. It is modelled as the collection overload applied to a one-element list.
- ApplySort's single C# loop body is split into three methods: `ApplySort`, `AppendClause` and
  `AppendLevels`.
- ShapeData's three loops are split into three methods: `ResolveFieldList`, `ShapeObjects`
  and `ShapeObject`.
- A null element in the source is not modelled: objects are maps, never null, so the
  exception `GetValue` throws on a null object is left out.
- The mapping table is assumed to use an ordinal case-insensitive key comparer. `Lookup`
  compares keys ignoring case, as the test table built with `StringComparer.OrdinalIgnoreCase`
  does (`CourseLibrary.Test/CourseLibraryRepositoryTests.cs:16`). `PropertyMappingService` is
  not part of this model, and a table built with another comparer is not modelled.
- The element type's array creation and `CopyTo` are one array allocation initialized from
  the converted values.
- `CreateAuthor`, `GetAuthorsOptions` and the AuthorCollectionsController actions other than
  the id join are outside the modelled core.
