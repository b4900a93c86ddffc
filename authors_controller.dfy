/**
 * The decision logic of AuthorsController
 * (CourseLibrary.API/Controllers/AuthorsController.cs): request validation
 * and its order, the choice of representation from the Accept header, the
 * HATEOAS links of the author collection and of one author, and the paging
 * URIs. The repository, the object mapper, `Url.Link` and the media-type
 * parser are inputs: their results are parameters, and a link is modelled by
 * the route name and route values `Url.Link` is called with.
 */
module AuthorsController {
  import opened Wrappers
  import opened Strings
  import opened EnumerableExtensions
  import opened PropertyChecker
  import opened ResourceParameters

  /** A 128-bit author identifier. */
  type Guid = x: int | 0 <= x < 0x1_0000_0000_0000_0000_0000_0000_0000_0000

  /** A route value handed to `Url.Link`. */
  datatype RouteValue = Number(n: int) | Text(s: Option<string>) | AuthorId(id: Guid)

  /** The arguments of a `Url.Link` call: the route name and the route values, in order. */
  datatype Href = Link(routeName: string, values: seq<(string, RouteValue)>)

  datatype LinkDto = LinkDto(href: Href, rel: string, verb: string)

  datatype ResourceUriType = PreviousPage | NextPage | Current

  /** The values a shaped author holds. */
  datatype FieldValue = NullValue | IdValue(id: Guid) | LinksValue(links: seq<LinkDto>) | TextValue(text: string)

  /** An author DTO, as ShapeData sees it. */
  type Author = Object<FieldValue>

  /** The exceptions the actions can raise; the framework turns each into a server error. */
  datatype Fault =
    | Shaping(error: ShapeError)
    | KeyNotFound(key: string)
    | InvalidCast
    | NullReference
    | SubstringOutOfRange

  /** The action results: 400 with an optional problem detail, 404, 200 with a body, or an exception. */
  datatype Outcome<T> = BadRequest(detail: Option<string>) | NotFound | Ok(body: T) | Fault(fault: Fault)

  const FieldsProblem := "Not all requested data shaping fields exist on the resource: "
  const MediaTypeProblem := "Accept header media type value is not a valid media type."
  const FullAuthorType := "vnd.marvin.author.full"

  /** A nullable string inside an interpolated string: null prints as nothing. */
  function Interpolated(s: Option<string>): string {
    if s.None? then "" else s.value
  }

  // ---- Paging URIs -------------------------------------------------------

  /** The page number a paging link asks for; C# `int` arithmetic wraps. */
  function PageNumberFor(p: AuthorsResourceParameters, t: ResourceUriType): Int32
    reads p
  {
    match t
    case PreviousPage => Wrap(p.pageNumber - 1)
    case NextPage => Wrap(p.pageNumber + 1)
    case Current => p.pageNumber
  }

  /** The route values shared by every paging link, after the page number. */
  function EchoedValues(p: AuthorsResourceParameters): seq<(string, RouteValue)>
    reads p
  {
    [("pageSize", Number(p.PageSize())), ("mainCategory", Text(p.mainCategory)), ("searchQuery", Text(p.searchQuery)),
     ("orderBy", Text(p.orderBy)), ("fields", Text(p.fields))]
  }

  /** CreateAuthorsResourceUri. */
  function CreateAuthorsResourceUri(p: AuthorsResourceParameters, t: ResourceUriType): Href
    reads p
  {
    Link("GetAuthors", [("pageNumber", Number(PageNumberFor(p, t)))] + EchoedValues(p))
  }

  /**
   * The three paging URIs go to the GetAuthors route and differ only in the
   * page number: one more, one less, or the current one. The page size,
   * category, search query, ordering and fields are echoed unchanged.
   */
  lemma PagingUris(p: AuthorsResourceParameters, t: ResourceUriType)
    ensures CreateAuthorsResourceUri(p, t).routeName == "GetAuthors"
    ensures CreateAuthorsResourceUri(p, t).values[0] == ("pageNumber", Number(PageNumberFor(p, t)))
    ensures CreateAuthorsResourceUri(p, t).values[1..] == CreateAuthorsResourceUri(p, Current).values[1..]
    ensures CreateAuthorsResourceUri(p, t).values[1..] == EchoedValues(p)
    ensures EchoedValues(p)[0] == ("pageSize", Number(p.pageSizeField)) && EchoedValues(p)[4] == ("fields", Text(p.fields))
    ensures t == NextPage && p.pageNumber < 0x7FFF_FFFF ==> PageNumberFor(p, t) == p.pageNumber + 1
    ensures t == PreviousPage && p.pageNumber > -0x8000_0000 ==> PageNumberFor(p, t) == p.pageNumber - 1
  {
  }

  /**
   * The paging links pass the search text back under the route value
   * "searchQuery", but the parameter binds only from the query key "q": no
   * paging link carries a "q" value, so following one drops the search.
   */
  lemma PagingLinksDropSearch(p: AuthorsResourceParameters, t: ResourceUriType)
    ensures ("searchQuery", Text(p.searchQuery)) in CreateAuthorsResourceUri(p, t).values
    ensures forall i :: 0 <= i < |CreateAuthorsResourceUri(p, t).values| ==>
      CreateAuthorsResourceUri(p, t).values[i].0 != SearchQueryKey
  {
    var values := CreateAuthorsResourceUri(p, t).values;
    assert values[3] == ("searchQuery", Text(p.searchQuery));
    forall i | 0 <= i < |values|
      ensures values[i].0 != SearchQueryKey
    {
      assert |values[i].0| > 1;
    }
  }

  // ---- Collection links --------------------------------------------------

  /** The links of the author collection. */
  function CollectionLinks(p: AuthorsResourceParameters, hasNext: bool, hasPrevious: bool): seq<LinkDto>
    reads p
  {
    [LinkDto(CreateAuthorsResourceUri(p, Current), "self", "GET")]
    + (if hasNext then [LinkDto(CreateAuthorsResourceUri(p, NextPage), "nextPage", "GET")] else [])
    + (if hasPrevious then [LinkDto(CreateAuthorsResourceUri(p, PreviousPage), "previousPage", "GET")] else [])
  }

  /** CreateLinksForAuthors: a list started with the self link, then added to. */
  method CreateLinksForAuthors(p: AuthorsResourceParameters, hasNext: bool, hasPrevious: bool) returns (links: seq<LinkDto>)
    ensures links == CollectionLinks(p, hasNext, hasPrevious)
  {
    links := [LinkDto(CreateAuthorsResourceUri(p, Current), "self", "GET")];
    if hasNext {
      links := links + [LinkDto(CreateAuthorsResourceUri(p, NextPage), "nextPage", "GET")];
    }
    if hasPrevious {
      links := links + [LinkDto(CreateAuthorsResourceUri(p, PreviousPage), "previousPage", "GET")];
    }
  }

  /**
   * `self` comes first; `nextPage` is there iff there is a next page and
   * `previousPage` iff there is a previous one, next before previous; every
   * link is a GET.
   */
  lemma CollectionLinksShape(p: AuthorsResourceParameters, hasNext: bool, hasPrevious: bool)
    ensures var links := CollectionLinks(p, hasNext, hasPrevious);
      |links| == 1 + (if hasNext then 1 else 0) + (if hasPrevious then 1 else 0)
      && links[0] == LinkDto(CreateAuthorsResourceUri(p, Current), "self", "GET")
      && (forall i :: 0 <= i < |links| ==> links[i].verb == "GET")
      && ((exists i :: 0 <= i < |links| && links[i].rel == "nextPage") <==> hasNext)
      && ((exists i :: 0 <= i < |links| && links[i].rel == "previousPage") <==> hasPrevious)
      && (hasNext ==> links[1] == LinkDto(CreateAuthorsResourceUri(p, NextPage), "nextPage", "GET"))
      && (hasPrevious ==> links[|links| - 1] == LinkDto(CreateAuthorsResourceUri(p, PreviousPage), "previousPage", "GET"))
  {
    var links := CollectionLinks(p, hasNext, hasPrevious);
    if hasNext {
      assert links[1].rel == "nextPage";
    }
    if hasPrevious {
      assert links[|links| - 1].rel == "previousPage";
    }
  }

  // ---- Links of one author -------------------------------------------------

  /** The links of one author; `self` carries the fields only when they are not blank. */
  function AuthorLinks(authorId: Guid, fields: Option<string>): seq<LinkDto> {
    var id := ("authorId", AuthorId(authorId));
    [LinkDto(Link("GetAuthor", if IsNullOrWhiteSpace(fields) then [id] else [id, ("fields", Text(fields))]), "self", "GET"),
     LinkDto(Link("CreateCourseForAuthor", [id]), "create_course_for_author", "POST"),
     LinkDto(Link("GetCoursesForAuthor", [id]), "courses", "GET")]
  }

  /** CreateLinksForAuthor: an empty list to which the three links are added. */
  method CreateLinksForAuthor(authorId: Guid, fields: Option<string>) returns (links: seq<LinkDto>)
    ensures links == AuthorLinks(authorId, fields)
  {
    links := [];
    if IsNullOrWhiteSpace(fields) {
      links := links + [LinkDto(Link("GetAuthor", [("authorId", AuthorId(authorId))]), "self", "GET")];
    } else {
      links := links + [LinkDto(Link("GetAuthor", [("authorId", AuthorId(authorId)), ("fields", Text(fields))]), "self", "GET")];
    }
    links := links + [LinkDto(Link("CreateCourseForAuthor", [("authorId", AuthorId(authorId))]), "create_course_for_author", "POST")];
    links := links + [LinkDto(Link("GetCoursesForAuthor", [("authorId", AuthorId(authorId))]), "courses", "GET")];
  }

  function RouteKeys(h: Href): seq<string> {
    seq(|h.values|, i requires 0 <= i < |h.values| => h.values[i].0)
  }

  /**
   * An author has exactly the links self (GET), create_course_for_author
   * (POST) and courses (GET), in that order, each for that author; only
   * `self` may carry the fields, and it does so iff they are not blank.
   */
  lemma AuthorLinksShape(authorId: Guid, fields: Option<string>)
    ensures var links := AuthorLinks(authorId, fields);
      |links| == 3
      && links[0].rel == "self" && links[0].verb == "GET" && links[0].href.routeName == "GetAuthor"
      && links[1].rel == "create_course_for_author" && links[1].verb == "POST"
      && links[2].rel == "courses" && links[2].verb == "GET"
      && (forall i :: 0 <= i < 3 ==> links[i].href.values[0] == ("authorId", AuthorId(authorId)))
      && ("fields" in RouteKeys(links[0].href) <==> !IsNullOrWhiteSpace(fields))
      && "fields" !in RouteKeys(links[1].href) && "fields" !in RouteKeys(links[2].href)
  {
    var links := AuthorLinks(authorId, fields);
    assert RouteKeys(links[1].href) == ["authorId"];
    assert RouteKeys(links[2].href) == ["authorId"];
    if IsNullOrWhiteSpace(fields) {
      assert RouteKeys(links[0].href) == ["authorId"];
    } else {
      assert RouteKeys(links[0].href) == ["authorId", "fields"];
    }
  }

  // ---- Representation from the Accept header -------------------------------

  /** A media type as `MediaTypeHeaderValue.TryParse` reports it. */
  datatype MediaType = MediaType(mediaType: string, subType: string)

  /** The subtype without its structured-syntax suffix (section 4.2.8 of RFC 6838): the text before the last '+'. */
  function SubTypeWithoutSuffix(subType: string): (r: string)
    ensures '+' !in subType ==> r == subType
    ensures '+' in subType ==> |r| < |subType| && r == subType[..|r|] && subType[|r|] == '+' && '+' !in subType[|r| + 1..]
  {
    var i := LastIndexOf(subType, '+');
    if i == -1 then subType else subType[..i]
  }

  /** `subtype+suffix` loses exactly its suffix, whatever '+' signs the subtype itself holds. */
  lemma SuffixRemoved(subType: string, suffix: string)
    requires '+' !in suffix
    ensures SubTypeWithoutSuffix(subType + "+" + suffix) == subType
  {
    var x := subType + "+" + suffix;
    assert x[|subType|] == '+';
    assert x[|subType| + 1..] == suffix;
    assert x[..|subType|] == subType;
  }

  /** Whether the response carries links, and whether it is the full author. */
  datatype Representation = Representation(includeLinks: bool, fullAuthor: bool)

  /**
   * The representation a subtype (without suffix) asks for: links iff it ends
   * with "hateoas" in any case; the primary type is what remains after
   * dropping its last 8 characters, which throws when the subtype is
   * "hateoas" alone; the full author iff the primary type is exactly
   * "vnd.marvin.author.full". The character cut off before "hateoas" is not
   * looked at, so the full author is the full type itself or the full type
   * followed by any one character and "hateoas" in any case.
   */
  function SelectRepresentation(subType: string): (r: Result<Representation, Fault>)
    ensures r.Failure? <==> EndsWithIgnoreCase(subType, "hateoas") && |subType| == 7
    ensures r.Success? ==> r.value.includeLinks == EndsWithIgnoreCase(subType, "hateoas")
    ensures r.Success? ==>
      (r.value.fullAuthor <==>
         subType == FullAuthorType
         || (|subType| == |FullAuthorType| + 8 && subType[..|FullAuthorType|] == FullAuthorType
             && EndsWithIgnoreCase(subType, "hateoas")))
  {
    FullTypeAsksNoLinks();
    var includeLinks := EndsWithIgnoreCase(subType, "hateoas");
    if includeLinks && |subType| - 8 < 0 then Failure(SubstringOutOfRange)
    else
      var primaryMediaType := if includeLinks then subType[..|subType| - 8] else subType;
      Success(Representation(includeLinks, primaryMediaType == FullAuthorType))
  }

  /** The full type itself does not end with "hateoas": its last letter is an l. */
  lemma FullTypeAsksNoLinks()
    ensures !EndsWithIgnoreCase(FullAuthorType, "hateoas")
  {
    assert Fold(FullAuthorType)[|FullAuthorType| - 1] == 'L';
    assert Fold("hateoas")[6] == 'S';
  }

  /**
   * A primary type, any one character and "hateoas" in any case ask for
   * links, and for the full author iff the primary type is the full one.
   */
  lemma HateoasSuffix(primary: string, c: char, word: string)
    requires Fold(word) == Fold("hateoas")
    ensures SelectRepresentation(primary + [c] + word) == Success(Representation(true, primary == FullAuthorType))
  {
    var s := primary + [c] + word;
    assert |word| == 7;
    FoldAppend(primary + [c], word);
    assert Fold(s)[|s| - 7..] == Fold(word);
    assert s[..|s| - 8] == primary;
  }

  /** Any primary type followed by ".hateoas" asks for links, and for the full author iff the primary type is the full one. */
  lemma HateoasRepresentation(primary: string)
    ensures SelectRepresentation(primary + ".hateoas") == Success(Representation(true, primary == FullAuthorType))
  {
    assert primary + ".hateoas" == primary + ['.'] + "hateoas";
    HateoasSuffix(primary, '.', "hateoas");
  }

  /** "HATEOAS" in capitals asks for links too: the suffix test ignores case. */
  lemma UpperHateoasRepresentation()
    ensures SelectRepresentation(FullAuthorType + ".HATEOAS") == Success(Representation(true, true))
  {
    assert Fold("HATEOAS") == Fold("hateoas");
    assert FullAuthorType + ".HATEOAS" == FullAuthorType + ['.'] + "HATEOAS";
    HateoasSuffix(FullAuthorType, '.', "HATEOAS");
  }

  /** The character before "hateoas" is cut off unread: "vnd.marvin.author.fullXhateoas" is the full author with links. */
  lemma AnySeparatorRepresentation()
    ensures SelectRepresentation(FullAuthorType + "Xhateoas") == Success(Representation(true, true))
  {
    assert FullAuthorType + "Xhateoas" == FullAuthorType + ['X'] + "hateoas";
    HateoasSuffix(FullAuthorType, 'X', "hateoas");
  }

  /** Without a separator the cut takes the last letter of the type: "vnd.marvin.author.fullhateoas" is the friendly author with links. */
  lemma NoSeparatorRepresentation()
    ensures SelectRepresentation(FullAuthorType + "hateoas") == Success(Representation(true, false))
  {
    var primary := "vnd.marvin.author.ful";
    assert FullAuthorType + "hateoas" == primary + ['l'] + "hateoas";
    assert primary != FullAuthorType by {
      assert |primary| != |FullAuthorType|;
    }
    HateoasSuffix(primary, 'l', "hateoas");
  }

  /** "vnd.marvin.authors" ends in an s but not in "hateoas": the friendly author without links. */
  lemma PluralAuthorsRepresentation()
    ensures SelectRepresentation("vnd.marvin.authors") == Success(Representation(false, false))
  {
    var s := "vnd.marvin.authors";
    assert Fold(s)[|s| - 7] == 'A';
    assert Fold("hateoas")[0] == 'H';
    assert |s| != |FullAuthorType|;
  }

  /** A subtype whose last letter is not an s (in either case) asks for no links; the full author iff it is exactly the full type. */
  lemma PlainRepresentation(subType: string)
    requires subType != [] && ToUpperAscii(subType[|subType| - 1]) != 'S'
    ensures SelectRepresentation(subType) == Success(Representation(false, subType == FullAuthorType))
  {
    if |subType| >= 7 {
      assert Fold(subType)[|subType| - 1] != Fold("hateoas")[6];
      assert Fold(subType)[|subType| - 7..][6] == Fold(subType)[|subType| - 1];
    }
  }

  /** The subtype "hateoas" on its own (application/hateoas+json) makes the substring throw. */
  lemma HateoasAloneFails()
    ensures SelectRepresentation("hateoas") == Failure(SubstringOutOfRange)
    ensures SelectRepresentation("HATEOAS") == Failure(SubstringOutOfRange)
  {
    assert Fold("HATEOAS") == Fold("hateoas");
  }

  // The representations of the media types GetAuthor declares it produces.

  lemma JsonMediaType()
    ensures SelectRepresentation(SubTypeWithoutSuffix("json")) == Success(Representation(false, false))
  {
    PlainRepresentation("json");
  }

  lemma MarvinHateoasMediaType()
    ensures SelectRepresentation(SubTypeWithoutSuffix("vnd.marvin.hateoas+json")) == Success(Representation(true, false))
  {
    assert "vnd.marvin.hateoas+json" == "vnd.marvin" + ".hateoas" + "+" + "json";
    SuffixRemoved("vnd.marvin" + ".hateoas", "json");
    HateoasRepresentation("vnd.marvin");
  }

  lemma FullAuthorMediaType()
    ensures SelectRepresentation(SubTypeWithoutSuffix("vnd.marvin.author.full+json")) == Success(Representation(false, true))
  {
    assert "vnd.marvin.author.full+json" == FullAuthorType + "+" + "json";
    SuffixRemoved(FullAuthorType, "json");
    PlainRepresentation(FullAuthorType);
  }

  lemma FullAuthorHateoasMediaType()
    ensures SelectRepresentation(SubTypeWithoutSuffix("vnd.marvin.author.full.hateoas+json")) == Success(Representation(true, true))
  {
    assert "vnd.marvin.author.full.hateoas+json" == FullAuthorType + ".hateoas" + "+" + "json";
    SuffixRemoved(FullAuthorType + ".hateoas", "json");
    HateoasRepresentation(FullAuthorType);
  }

  lemma FriendlyAuthorMediaType()
    ensures SelectRepresentation(SubTypeWithoutSuffix("vnd.marvin.author.friendly+json")) == Success(Representation(false, false))
  {
    assert "vnd.marvin.author.friendly+json" == "vnd.marvin.author.friendly" + "+" + "json";
    SuffixRemoved("vnd.marvin.author.friendly", "json");
    PlainRepresentation("vnd.marvin.author.friendly");
  }

  lemma FriendlyAuthorHateoasMediaType()
    ensures SelectRepresentation(SubTypeWithoutSuffix("vnd.marvin.author.friendly.hateoas+json")) == Success(Representation(true, false))
  {
    assert "vnd.marvin.author.friendly.hateoas+json" == "vnd.marvin.author.friendly" + ".hateoas" + "+" + "json";
    SuffixRemoved("vnd.marvin.author.friendly" + ".hateoas", "json");
    HateoasRepresentation("vnd.marvin.author.friendly");
  }

  // ---- GetAuthor -----------------------------------------------------------

  /**
   * GetAuthor. The Accept header is checked first, then the fields against the
   * DTO of the chosen representation, and only then is the author looked up.
   * `authorFromRepo` is the repository's answer, given as the author's full
   * and friendly DTOs; `fullProps` and `friendlyProps` are the properties of
   * those two DTO types.
   */
  function GetAuthor(authorId: Guid, fields: Option<string>, parsedMediaType: Option<MediaType>,
                     fullProps: seq<string>, friendlyProps: seq<string>, authorFromRepo: Option<(Author, Author)>): Outcome<Record<FieldValue>>
    requires authorFromRepo.Some? ==>
      HasProperties(authorFromRepo.value.0, fullProps) && HasProperties(authorFromRepo.value.1, friendlyProps)
  {
    if parsedMediaType.None? then BadRequest(Some(MediaTypeProblem))
    else
      match SelectRepresentation(SubTypeWithoutSuffix(parsedMediaType.value.subType))
      case Failure(f) => Fault(f)
      case Success(rep) =>
        var props := if rep.fullAuthor then fullProps else friendlyProps;
        if !FieldsExist(props, fields) then BadRequest(Some(FieldsProblem + Interpolated(fields)))
        else if authorFromRepo.None? then NotFound
        else
          var author := if rep.fullAuthor then authorFromRepo.value.0 else authorFromRepo.value.1;
          ShapeAuthor(author, props, fields, if rep.includeLinks then Some(AuthorLinks(authorId, fields)) else None)
  }

  /** The found author, shaped, with the links added when they were asked for. */
  function ShapeAuthor(author: Author, props: seq<string>, fields: Option<string>, links: Option<seq<LinkDto>>): Outcome<Record<FieldValue>>
    requires HasProperties(author, props)
  {
    assert AllHave([author], props);
    ShapeOutcome([author], props, fields);
    match Shape(Some([author]), props, fields)
    case Failure(e) => Fault(Shaping(e))
    case Success(records) =>
      if links.None? then Ok(records[0])
      else
        match Add(records[0], "links", LinksValue(links.value))
        case Failure(e) => Fault(Shaping(e))
        case Success(r) => Ok(r)
  }

  /**
   * An unparseable Accept header is a 400 whatever else the request holds;
   * invalid fields are a 400 whether or not the author exists; valid fields
   * and no author are a 404.
   */
  lemma GetAuthorValidationOrder(authorId: Guid, fields: Option<string>, parsedMediaType: Option<MediaType>,
                                 fullProps: seq<string>, friendlyProps: seq<string>, authorFromRepo: Option<(Author, Author)>)
    requires authorFromRepo.Some? ==>
      HasProperties(authorFromRepo.value.0, fullProps) && HasProperties(authorFromRepo.value.1, friendlyProps)
    ensures parsedMediaType.None? ==> GetAuthor(authorId, fields, parsedMediaType, fullProps, friendlyProps, authorFromRepo) == BadRequest(Some(MediaTypeProblem))
    ensures parsedMediaType.Some? ==>
      var rep := SelectRepresentation(SubTypeWithoutSuffix(parsedMediaType.value.subType));
      var outcome := GetAuthor(authorId, fields, parsedMediaType, fullProps, friendlyProps, authorFromRepo);
      (rep.Failure? ==> outcome == Fault(SubstringOutOfRange))
      && (rep.Success? && !FieldsExist(if rep.value.fullAuthor then fullProps else friendlyProps, fields) ==>
            outcome == BadRequest(Some(FieldsProblem + Interpolated(fields)))
            && outcome == GetAuthor(authorId, fields, parsedMediaType, fullProps, friendlyProps, None))
      && (rep.Success? && FieldsExist(if rep.value.fullAuthor then fullProps else friendlyProps, fields) && authorFromRepo.None? ==>
            outcome == NotFound)
  {
  }

  /**
   * A found author whose fields passed the check comes back as the chosen DTO
   * shaped by the fields, with a "links" entry holding its three links iff
   * the media type asked for links (the DTOs have no "links" property of
   * their own); a property requested twice makes the shaping throw.
   */
  lemma GetAuthorBody(authorId: Guid, fields: Option<string>, media: MediaType, rep: Representation,
                      fullProps: seq<string>, friendlyProps: seq<string>, full: Author, friendly: Author)
    requires HasProperties(full, fullProps) && HasProperties(friendly, friendlyProps)
    requires "links" !in fullProps && "links" !in friendlyProps
    requires SelectRepresentation(SubTypeWithoutSuffix(media.subType)) == Success(rep)
    requires FieldsExist(if rep.fullAuthor then fullProps else friendlyProps, fields)
    ensures ResolveFields(if rep.fullAuthor then fullProps else friendlyProps, fields).Success?
    ensures var ps := ResolveFields(if rep.fullAuthor then fullProps else friendlyProps, fields).value;
      var author := if rep.fullAuthor then full else friendly;
      var outcome := GetAuthor(authorId, fields, Some(media), fullProps, friendlyProps, Some((full, friendly)));
      HasProperties(author, ps)
      && (Distinct(ps) ==>
            outcome == Ok(Entries(author, ps) + (if rep.includeLinks then [("links", LinksValue(AuthorLinks(authorId, fields)))] else [])))
      && (!Distinct(ps) ==> outcome.Fault? && outcome.fault.Shaping? && outcome.fault.error.DuplicateKey?)
  {
    var props := if rep.fullAuthor then fullProps else friendlyProps;
    var author := if rep.fullAuthor then full else friendly;
    CheckAgreesWithShapeData(props, fields);
    ShapeAuthorOutcome(author, props, fields, if rep.includeLinks then Some(AuthorLinks(authorId, fields)) else None);
  }

  lemma ShapeAuthorOutcome(author: Author, props: seq<string>, fields: Option<string>, links: Option<seq<LinkDto>>)
    requires HasProperties(author, props) && "links" !in props
    requires ResolveFields(props, fields).Success?
    ensures var ps := ResolveFields(props, fields).value;
      HasProperties(author, ps)
      && (Distinct(ps) ==>
            ShapeAuthor(author, props, fields, links)
            == Ok(Entries(author, ps) + (if links.Some? then [("links", LinksValue(links.value))] else [])))
      && (!Distinct(ps) ==>
            ShapeAuthor(author, props, fields, links).Fault?
            && ShapeAuthor(author, props, fields, links).fault.Shaping?
            && ShapeAuthor(author, props, fields, links).fault.error.DuplicateKey?)
  {
    var ps := ResolveFields(props, fields).value;
    assert AllHave([author], props);
    ShapeOutcome([author], props, fields);
    ProjectAllRecords([author], ps);
    ProjectEntries(author, ps);
    if Distinct(ps) {
      EntriesKeys(author, ps);
      assert "links" !in ps;
      assert "links" !in Keys(Entries(author, ps));
      var s := Shape(Some([author]), props, fields);
      assert s.Success? && |s.value| == 1;
      assert [author][0] == author;
      assert s.value[0] == Entries(author, ps);
      assert s.value == [Entries(author, ps)];
      if links.Some? {
        assert Add(s.value[0], "links", LinksValue(links.value))
          == Success(Entries(author, ps) + [("links", LinksValue(links.value))]);
        assert ShapeAuthor(author, props, fields, links) == Ok(Entries(author, ps) + [("links", LinksValue(links.value))]);
      } else {
        assert ShapeAuthor(author, props, fields, links) == Ok(Entries(author, ps));
        assert Entries(author, ps) + [] == Entries(author, ps);
      }
    }
  }

  // ---- The author collection -------------------------------------------------

  /** What the repository returns for the parameters: the page of mapped author DTOs and its paging figures. */
  datatype Page = Page(items: seq<Author>, totalCount: Int32, pageSize: Int32, currentPage: Int32, totalPages: Int32,
                       hasNext: bool, hasPrevious: bool)

  /** PaginationMetadataDto, serialized into the X-Pagination header. */
  datatype PaginationMetadata = PaginationMetadata(totalCount: Int32, pageSize: Int32, currentPage: Int32, totalPages: Int32)

  /** The 200 response of GetAuthors: the header's metadata, the body's value and the body's links. */
  datatype AuthorsResponse = AuthorsResponse(pagination: PaginationMetadata, value: seq<Record<FieldValue>>, links: seq<LinkDto>)

  /** `TryGetValue` on a shaped author (ordinal keys): the value stored under the key, if any. */
  function Get(r: Record<FieldValue>, key: string): (v: Option<FieldValue>)
    ensures v.None? <==> key !in Keys(r)
    ensures v.Some? ==> (key, v.value) in r
    decreases |r|
  {
    if r == [] then None
    else
      assert Keys(r) == [r[0].0] + Keys(r[1..]);
      if r[0].0 == key then Some(r[0].1) else Get(r[1..], key)
  }

  /**
   * The step applied to each shaped author: when its "links" value is missing
   * or null, the links of the author its "Id" holds are added under "links".
   * A missing "Id" throws KeyNotFoundException, a null one cannot be unboxed,
   * any other non-Guid value is an invalid cast, and adding "links" next to a
   * null "links" entry throws on the duplicate key.
   */
  function WithLinks(r: Record<FieldValue>): Result<Record<FieldValue>, Fault> {
    var existing := Get(r, "links");
    if existing.Some? && !existing.value.NullValue? then Success(r)
    else
      match Get(r, "Id")
      case None => Failure(KeyNotFound("Id"))
      case Some(v) =>
        if v.NullValue? then Failure(NullReference)
        else if !v.IdValue? then Failure(InvalidCast)
        else
          match Add(r, "links", LinksValue(AuthorLinks(v.id, None)))
          case Failure(e) => Failure(Shaping(e))
          case Success(linked) => Success(linked)
  }

  /** The step applied to every shaped author in turn; the first exception ends the enumeration. */
  function WithLinksAll(rs: seq<Record<FieldValue>>): Result<seq<Record<FieldValue>>, Fault>
    decreases |rs|
  {
    if rs == [] then Success([])
    else
      match WithLinksAll(rs[..|rs| - 1])
      case Failure(f) => Failure(f)
      case Success(done) =>
        match WithLinks(rs[|rs| - 1])
        case Failure(f) => Failure(f)
        case Success(linked) => Success(done + [linked])
  }

  /**
   * GetAuthors: an unknown ordering is a bare 400, unknown fields a 400 with
   * a problem detail; otherwise the page is shaped, each author gets its
   * links and the collection its paging links.
   */
  function GetAuthors(p: AuthorsResourceParameters, orderByMapped: bool, authorProps: seq<string>, page: Page): Outcome<AuthorsResponse>
    reads p
    requires AllHave(page.items, authorProps)
  {
    if !orderByMapped then BadRequest(None)
    else if !FieldsExist(authorProps, p.fields) then BadRequest(Some(FieldsProblem + Interpolated(p.fields)))
    else
      var metadata := PaginationMetadata(page.totalCount, page.pageSize, page.currentPage, page.totalPages);
      var links := CollectionLinks(p, page.hasNext, page.hasPrevious);
      match Shape(Some(page.items), authorProps, p.fields)
      case Failure(e) => Fault(Shaping(e))
      case Success(shaped) =>
        match WithLinksAll(shaped)
        case Failure(f) => Fault(f)
        case Success(value) => Ok(AuthorsResponse(metadata, value, links))
  }

  /** A shaped author answers a key with the value of that property, and a key it was not shaped with not at all. */
  lemma GetEntries(o: Author, ps: seq<string>, key: string)
    requires HasProperties(o, ps)
    ensures Get(Entries(o, ps), key) == if key in ps then Some(o[key]) else None
  {
    EntriesKeys(o, ps);
    var v := Get(Entries(o, ps), key);
    if v.Some? {
      var i :| 0 <= i < |ps| && Entries(o, ps)[i] == (key, v.value);
    }
  }

  /** A key added after the others is found with the value it was added with. */
  lemma GetAppendNew(r: Record<FieldValue>, key: string, v: FieldValue)
    requires key !in Keys(r)
    ensures Get(r + [(key, v)], key) == Some(v)
  {
    var r' := r + [(key, v)];
    var w := Get(r', key);
    assert Keys(r')[|r|] == key;
    var i :| 0 <= i < |r'| && r'[i] == (key, w.value);
    assert forall j :: 0 <= j < |r| ==> Keys(r)[j] == r[j].0;
    assert i == |r|;
  }

  /** An author shaped without "links" and with a Guid "Id" gets exactly its three links appended under "links". */
  lemma WithLinksAdds(r: Record<FieldValue>, id: Guid)
    requires "links" !in Keys(r) && Get(r, "Id") == Some(IdValue(id))
    ensures WithLinks(r) == Success(r + [("links", LinksValue(AuthorLinks(id, None)))])
    ensures Keys(WithLinks(r).value) == Keys(r) + ["links"]
  {
    KeysAppend(r, "links", LinksValue(AuthorLinks(id, None)));
  }

  /** Adding the links twice changes nothing: the second pass finds them. */
  lemma WithLinksIdempotent(r: Record<FieldValue>)
    requires WithLinks(r).Success?
    ensures WithLinks(WithLinks(r).value) == WithLinks(r)
  {
    var existing := Get(r, "links");
    if !(existing.Some? && !existing.value.NullValue?) {
      var id := Get(r, "Id").value.id;
      assert "links" !in Keys(r);
      GetAppendNew(r, "links", LinksValue(AuthorLinks(id, None)));
    }
  }

  /**
   * The step applied to all authors succeeds iff it succeeds on each, giving
   * each one's result in order; otherwise the first author it fails on
   * decides the exception.
   */
  lemma {:induction false} WithLinksAllPointwise(rs: seq<Record<FieldValue>>)
    ensures WithLinksAll(rs).Success? <==> forall k :: 0 <= k < |rs| ==> WithLinks(rs[k]).Success?
    ensures WithLinksAll(rs).Success? ==>
      |WithLinksAll(rs).value| == |rs|
      && forall k :: 0 <= k < |rs| ==> WithLinksAll(rs).value[k] == WithLinks(rs[k]).value
    decreases |rs|
  {
    if rs != [] {
      var front := rs[..|rs| - 1];
      WithLinksAllPointwise(front);
      assert forall k :: 0 <= k < |front| ==> front[k] == rs[k];
    }
  }

  /** A failing step fails with the exception of the first author whose links cannot be added. */
  lemma {:induction false} WithLinksAllFirstFailure(rs: seq<Record<FieldValue>>)
    ensures WithLinksAll(rs).Failure? ==>
      exists j :: 0 <= j < |rs| && WithLinks(rs[j]).Failure? && WithLinksAll(rs).error == WithLinks(rs[j]).error
        && forall k :: 0 <= k < j ==> WithLinks(rs[k]).Success?
    decreases |rs|
  {
    if rs != [] {
      var front := rs[..|rs| - 1];
      WithLinksAllFirstFailure(front);
      WithLinksAllPointwise(front);
      assert forall k :: 0 <= k < |front| ==> front[k] == rs[k];
      var out := WithLinksAll(rs);
      if WithLinksAll(front).Failure? {
        var j :| 0 <= j < |front| && WithLinks(front[j]).Failure? && WithLinksAll(front).error == WithLinks(front[j]).error
          && forall k :: 0 <= k < j ==> WithLinks(front[k]).Success?;
        assert WithLinks(rs[j]).Failure?;
      } else if WithLinks(rs[|rs| - 1]).Failure? {
        assert out.error == WithLinks(rs[|rs| - 1]).error;
      }
    }
  }

  /**
   * The action validates before it reads the page: an unknown ordering is a
   * bare 400 and unknown fields a 400 with the detail naming them, whatever
   * the repository holds; once both pass, the answer is never a 400 or a 404
   * (an empty page is a 200).
   */
  lemma GetAuthorsValidationOrder(p: AuthorsResourceParameters, orderByMapped: bool, authorProps: seq<string>, page: Page, other: Page)
    requires AllHave(page.items, authorProps) && AllHave(other.items, authorProps)
    ensures !orderByMapped ==> GetAuthors(p, orderByMapped, authorProps, page) == BadRequest(None)
    ensures orderByMapped && !FieldsExist(authorProps, p.fields) ==>
      GetAuthors(p, orderByMapped, authorProps, page) == BadRequest(Some(FieldsProblem + Interpolated(p.fields)))
    ensures !orderByMapped || !FieldsExist(authorProps, p.fields) ==>
      GetAuthors(p, orderByMapped, authorProps, page) == GetAuthors(p, orderByMapped, authorProps, other)
    ensures orderByMapped && FieldsExist(authorProps, p.fields) ==>
      !GetAuthors(p, orderByMapped, authorProps, page).BadRequest? && !GetAuthors(p, orderByMapped, authorProps, page).NotFound?
  {
  }

  /** Every shaped author that carries a Guid "Id" and no "links" gets its links. */
  lemma LinkedRecords(items: seq<Author>, ps: seq<string>, shaped: seq<Record<FieldValue>>)
    requires AllHave(items, ps) && "links" !in ps && "Id" in ps
    requires forall k :: 0 <= k < |items| ==> items[k]["Id"].IdValue?
    requires |shaped| == |items| && forall k :: 0 <= k < |items| ==> shaped[k] == Entries(items[k], ps)
    ensures WithLinksAll(shaped).Success?
    ensures |WithLinksAll(shaped).value| == |items|
    ensures forall k :: 0 <= k < |items| ==>
      WithLinksAll(shaped).value[k] == Entries(items[k], ps) + [("links", LinksValue(AuthorLinks(items[k]["Id"].id, None)))]
  {
    forall k | 0 <= k < |items|
      ensures WithLinks(shaped[k]) == Success(Entries(items[k], ps) + [("links", LinksValue(AuthorLinks(items[k]["Id"].id, None)))])
    {
      assert HasProperties(items[k], ps);
      GetEntries(items[k], ps, "Id");
      GetEntries(items[k], ps, "links");
      WithLinksAdds(shaped[k], items[k]["Id"].id);
    }
    WithLinksAllPointwise(shaped);
  }

  /**
   * A valid request whose fields name "Id" once and each property at most
   * once answers 200: the header carries the page's figures, the body's links
   * are the collection links and its value holds, for each author of the
   * page in order, the requested properties followed by the author's links.
   */
  lemma GetAuthorsBody(p: AuthorsResourceParameters, authorProps: seq<string>, page: Page)
    requires AllHave(page.items, authorProps) && FieldsExist(authorProps, p.fields)
    requires "links" !in authorProps
    requires forall k :: 0 <= k < |page.items| ==> "Id" in page.items[k] && page.items[k]["Id"].IdValue?
    ensures ResolveFields(authorProps, p.fields).Success?
    ensures var ps := ResolveFields(authorProps, p.fields).value;
      var outcome := GetAuthors(p, true, authorProps, page);
      Distinct(ps) && "Id" in ps ==>
        outcome.Ok?
        && outcome.body.pagination == PaginationMetadata(page.totalCount, page.pageSize, page.currentPage, page.totalPages)
        && outcome.body.links == CollectionLinks(p, page.hasNext, page.hasPrevious)
        && |outcome.body.value| == |page.items|
        && forall k :: 0 <= k < |page.items| ==>
             outcome.body.value[k] == Entries(page.items[k], ps) + [("links", LinksValue(AuthorLinks(page.items[k]["Id"].id, None)))]
  {
    CheckAgreesWithShapeData(authorProps, p.fields);
    var ps := ResolveFields(authorProps, p.fields).value;
    if Distinct(ps) && "Id" in ps {
      ShapeOutcome(page.items, authorProps, p.fields);
      var shaped := Shape(Some(page.items), authorProps, p.fields).value;
      LinkedRecords(page.items, ps, shaped);
    }
  }

  /**
   * Fields that leave out "Id" make the action throw on a non-empty page:
   * the links of an author are built from its "Id", which the shaped author
   * no longer has. An empty page is still a 200 with no authors.
   */
  lemma MissingIdFault(p: AuthorsResourceParameters, authorProps: seq<string>, page: Page)
    requires AllHave(page.items, authorProps) && FieldsExist(authorProps, p.fields)
    requires "links" !in authorProps
    requires ResolveFields(authorProps, p.fields).Success?
    requires var ps := ResolveFields(authorProps, p.fields).value; Distinct(ps) && "Id" !in ps
    ensures page.items != [] ==> GetAuthors(p, true, authorProps, page) == Fault(KeyNotFound("Id"))
    ensures page.items == [] ==> GetAuthors(p, true, authorProps, page).Ok? && GetAuthors(p, true, authorProps, page).body.value == []
  {
    var ps := ResolveFields(authorProps, p.fields).value;
    ShapeOutcome(page.items, authorProps, p.fields);
    var shaped := Shape(Some(page.items), authorProps, p.fields).value;
    WithLinksAllPointwise(shaped);
    WithLinksAllFirstFailure(shaped);
    if page.items != [] {
      assert HasProperties(page.items[0], ps);
      GetEntries(page.items[0], ps, "Id");
      GetEntries(page.items[0], ps, "links");
      assert WithLinks(shaped[0]) == Failure(KeyNotFound("Id"));
    }
  }

  /** A property requested twice makes the shaping of a non-empty page throw on the duplicate key. */
  lemma RepeatedFieldFault(p: AuthorsResourceParameters, authorProps: seq<string>, page: Page)
    requires AllHave(page.items, authorProps) && FieldsExist(authorProps, p.fields)
    requires ResolveFields(authorProps, p.fields).Success? && !Distinct(ResolveFields(authorProps, p.fields).value)
    requires page.items != []
    ensures GetAuthors(p, true, authorProps, page).Fault?
    ensures GetAuthors(p, true, authorProps, page).fault.Shaping?
    ensures GetAuthors(p, true, authorProps, page).fault.error.DuplicateKey?
  {
    var ps := ResolveFields(authorProps, p.fields).value;
    ShapeOutcome(page.items, authorProps, p.fields);
    assert AllHave(page.items, ps);
    ProjectAllRecords(page.items, ps);
    ProjectEntries(page.items[0], ps);
  }
}
