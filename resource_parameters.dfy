/**
 * AuthorsResourceParameters
 * (CourseLibrary.API/ResourceParameters/AuthorsResourceParameters.cs): the
 * query parameters of the author collection. The page size goes through a
 * setter that caps it at 20, but its backing field is public.
 */
module ResourceParameters {
  import opened Wrappers

  /** The values of a C# `int`. */
  type Int32 = x: int | -0x8000_0000 <= x < 0x8000_0000

  /** C# unchecked arithmetic: the result taken modulo 2^32 into the `int` range. */
  function Wrap(x: int): (r: Int32)
    ensures (r - x) % 0x1_0000_0000 == 0
    ensures -0x8000_0000 <= x < 0x8000_0000 ==> r == x
  {
    (x + 0x8000_0000) % 0x1_0000_0000 - 0x8000_0000
  }

  const MaxPageSize: Int32 := 20

  /** The query-string key the search text binds from: the property's `FromQuery` name. */
  const SearchQueryKey := "q"

  /** What the `PageSize` setter stores for `value`. */
  function Clamp(value: Int32): (r: Int32)
    ensures r <= MaxPageSize
    ensures value <= MaxPageSize ==> r == value
    ensures value > MaxPageSize ==> r == MaxPageSize
  {
    if value > MaxPageSize then MaxPageSize else value
  }

  class AuthorsResourceParameters {
    var mainCategory: Option<string>
    /** Bound from the query-string key "q". */
    var searchQuery: Option<string>
    var pageNumber: Int32
    /** The public backing field `_pageSize`: code may write it without the setter. */
    var pageSizeField: Int32
    /** Read by the controller although the class as given does not declare it; a nullable string here. */
    var orderBy: Option<string>
    /** Read by the controller although the class as given does not declare it; a nullable string here. */
    var fields: Option<string>

    /** The page size is within the cap: true after the constructor and after every setter call. */
    predicate Capped()
      reads this
    {
      pageSizeField <= MaxPageSize
    }

    /** The defaults: page 1 of size 10, no category, no search, no ordering, no fields. */
    constructor ()
      ensures mainCategory == None && searchQuery == None
      ensures pageNumber == 1 && pageSizeField == 10
      ensures orderBy == None && fields == None
      ensures Capped()
    {
      mainCategory := None;
      searchQuery := None;
      pageNumber := 1;
      pageSizeField := 10;
      orderBy := None;
      fields := None;
    }

    /** The `PageSize` getter. */
    function PageSize(): Int32
      reads this
    {
      pageSizeField
    }

    /** The `PageSize` setter: stores the value capped at 20, with no lower bound, and touches nothing else. */
    method SetPageSize(value: Int32)
      modifies this`pageSizeField
      ensures pageSizeField == Clamp(value)
      ensures Capped()
    {
      pageSizeField := if value > MaxPageSize then MaxPageSize else value;
    }

    /** A direct write of the public `_pageSize` field. */
    method AssignPageSizeField(value: Int32)
      modifies this`pageSizeField
      ensures pageSizeField == value
    {
      pageSizeField := value;
    }
  }

  /** Setting the page size to what was just read changes nothing once the value is within the cap. */
  lemma ClampIdempotent(value: Int32)
    ensures Clamp(Clamp(value)) == Clamp(value)
  {
  }

  /** Only a value over the cap is changed by the setter; 0 and negative sizes are stored as given. */
  lemma ClampFixesExactlyCapped(value: Int32)
    ensures Clamp(value) == value <==> value <= MaxPageSize
  {
  }

  /**
   * Writing through the setter and then reading gives the capped value, and
   * setting again what was read leaves it as it is.
   */
  method SetThenReassign(p: AuthorsResourceParameters, value: Int32)
    modifies p`pageSizeField
    ensures p.PageSize() == Clamp(value)
  {
    p.SetPageSize(value);
    var read := p.PageSize();
    p.SetPageSize(read);
  }

  /**
   * The cap is not an invariant of the class: a direct write of the public
   * field leaves a page size over 20, and the setter then changes a value
   * that was just read from the object.
   */
  method BypassBreaksCap() returns (p: AuthorsResourceParameters, reread: Int32)
    ensures fresh(p)
    ensures !p.Capped()
    ensures reread != p.PageSize()
  {
    p := new AuthorsResourceParameters();
    p.AssignPageSizeField(50);
    reread := Clamp(p.PageSize());
  }

  /** The previous page of the next page is the current one, with the `int` wrap-around included. */
  lemma NextThenPreviousPage(pageNumber: Int32)
    ensures Wrap(Wrap(pageNumber + 1) - 1) == pageNumber
  {
  }

  /** At the largest `int` the next page number wraps round to the smallest. */
  lemma NextPageWraps()
    ensures Wrap(0x7FFF_FFFF + 1) == -0x8000_0000
  {
  }
}
