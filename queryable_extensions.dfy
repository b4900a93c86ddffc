/**
 * ApplySort (CourseLibrary.API/Helpers/IQueryableExtensions.cs): turns a
 * comma-separated `orderBy` request parameter into the ordering string that is
 * handed to Dynamic LINQ. Each clause names a property a client may sort by;
 * a mapping dictionary sends that name to one or more destination properties
 * and may reverse the requested direction.
 */
module QueryableExtensions {
  import opened Wrappers
  import opened Strings
  import opened Sequences

  /** An entry of the mapping dictionary; `NullValue` is a null entry. */
  datatype PropertyMappingValue =
    | NullValue
    | MappingValue(destinationProperties: seq<string>, revert: bool)

  /** `Dictionary<string, PropertyMappingValue>` built with an ordinal case-insensitive comparer. */
  type MappingDictionary = seq<(string, PropertyMappingValue)>

  /** The exceptions ApplySort throws. */
  datatype SortError =
    | ArgumentNull(paramName: string)
    | KeyMappingMissing(propertyName: string)

  /** The queryable ApplySort returns: the source as it was, or the source ordered by a Dynamic LINQ ordering string. */
  datatype Query<T> = Unordered(items: seq<T>) | OrderedBy(items: seq<T>, ordering: string)

  /** One level of the ordering: a destination property and its direction. */
  datatype SortKey = SortKey(property: string, descending: bool)

  /** Case-insensitive key lookup (`ContainsKey` followed by the indexer). */
  function Lookup(d: MappingDictionary, name: string): Option<PropertyMappingValue>
    decreases |d|
  {
    if d == [] then None
    else if EqualsIgnoreCase(d[0].0, name) then Some(d[0].1)
    else Lookup(d[1..], name)
  }

  /**
   * The lookup finds nothing iff no key equals the name ignoring case, and
   * otherwise the value stored under such a key.
   */
  lemma {:induction false} LookupMeaning(d: MappingDictionary, name: string)
    ensures Lookup(d, name).None? <==> forall i :: 0 <= i < |d| ==> !EqualsIgnoreCase(d[i].0, name)
    ensures Lookup(d, name).Some? ==>
      exists i :: 0 <= i < |d| && EqualsIgnoreCase(d[i].0, name) && d[i].1 == Lookup(d, name).value
    decreases |d|
  {
    if d != [] && !EqualsIgnoreCase(d[0].0, name) {
      LookupMeaning(d[1..], name);
      assert forall i :: 1 <= i < |d| ==> d[i] == d[1..][i - 1];
      if Lookup(d, name).Some? {
        var i :| 0 <= i < |d[1..]| && EqualsIgnoreCase(d[1..][i].0, name) && d[1..][i].1 == Lookup(d, name).value;
        assert d[i + 1] == d[1..][i];
      }
    }
  }

  /** The property name of a trimmed clause: everything before its first space. */
  function PropertyName(clause: string): (name: string)
    ensures ' ' !in name
    ensures name <= clause
    ensures |name| < |clause| ==> clause[|name|] == ' '
  {
    var i := IndexOf(clause, ' ');
    if i == -1 then clause else clause[..i]
  }

  /** A trimmed clause asks for descending order iff it ends with exactly " desc" (case-sensitive). */
  predicate OrdersDescending(clause: string) {
    EndsWith(clause, " desc")
  }

  /** One key per destination property, in order, all in the same direction. */
  function DirectedKeys(destinations: seq<string>, descending: bool): (keys: seq<SortKey>)
    ensures |keys| == |destinations|
    ensures forall k :: 0 <= k < |keys| ==> keys[k] == SortKey(destinations[k], descending)
    decreases |destinations|
  {
    if destinations == [] then []
    else
      var n := |destinations| - 1;
      assert forall k :: 0 <= k < n ==> destinations[..n][k] == destinations[k];
      DirectedKeys(destinations[..n], descending) + [SortKey(destinations[n], descending)]
  }

  /** The sort levels one clause contributes, or the exception it raises. */
  function ClauseKeys(d: MappingDictionary, clause: string): Result<seq<SortKey>, SortError> {
    var trimmed := Trim(clause);
    var name := PropertyName(trimmed);
    match Lookup(d, name)
    case None => Failure(KeyMappingMissing(name))
    case Some(NullValue) => Failure(ArgumentNull("propertyMappingValue"))
    case Some(MappingValue(destinations, revert)) =>
      Success(DirectedKeys(destinations, OrdersDescending(trimmed) != revert))
  }

  /** The first failure of the two, else the concatenation. */
  function Combine(a: Result<seq<SortKey>, SortError>, b: Result<seq<SortKey>, SortError>): Result<seq<SortKey>, SortError> {
    match a
    case Failure(e) => Failure(e)
    case Success(x) =>
      match b
      case Failure(e) => Failure(e)
      case Success(y) => Success(x + y)
  }

  /** The first failure in a list of per-clause outcomes, else all their levels in order. */
  function CombineAll(rs: seq<Result<seq<SortKey>, SortError>>): Result<seq<SortKey>, SortError>
    decreases |rs|
  {
    if rs == [] then Success([]) else Combine(CombineAll(rs[..|rs| - 1]), rs[|rs| - 1])
  }

  /** The outcome of one clause, as a function value. */
  function Outcome(d: MappingDictionary): string -> Result<seq<SortKey>, SortError> {
    clause => ClauseKeys(d, clause)
  }

  /** The outcome of each clause, in clause order. */
  function ClauseOutcomes(d: MappingDictionary, clauses: seq<string>): seq<Result<seq<SortKey>, SortError>> {
    Map(Outcome(d), clauses)
  }

  /** The sort levels of a list of clauses, in clause order; the first failing clause decides the error. */
  function SortKeys(d: MappingDictionary, clauses: seq<string>): Result<seq<SortKey>, SortError> {
    CombineAll(ClauseOutcomes(d, clauses))
  }

  /** The Dynamic LINQ text of one sort level. */
  function Render(k: SortKey): string {
    k.property + (if k.descending then " descending" else " ascending")
  }

  /** The Dynamic LINQ ordering string: the rendered levels separated by ", ". */
  function OrderingString(keys: seq<SortKey>): string
    decreases |keys|
  {
    if keys == [] then ""
    else
      var front := keys[..|keys| - 1];
      (if front == [] then "" else OrderingString(front) + ", ") + Render(keys[|keys| - 1])
  }

  /** The text `s` with the levels `more` appended one by one, each after ", " unless the text so far is blank. */
  function Extended(s: string, more: seq<SortKey>): string
    decreases |more|
  {
    if more == [] then s
    else
      var t := Extended(s, more[..|more| - 1]);
      t + (if IsNullOrWhiteSpace(Some(t)) then "" else ", ") + Render(more[|more| - 1])
  }

  /**
   * ApplySort. Null checks come first, then a blank `orderBy` leaves the
   * source alone; otherwise every clause must resolve in the dictionary and the
   * source is ordered by the concatenated levels.
   */
  method ApplySort<T>(source: Option<seq<T>>, orderBy: Option<string>, mappingDictionary: Option<MappingDictionary>)
    returns (r: Result<Query<T>, SortError>)
    ensures source.None? ==> r == Failure(ArgumentNull("source"))
    ensures source.Some? && mappingDictionary.None? ==> r == Failure(ArgumentNull("mappingDictionary"))
    ensures source.Some? && mappingDictionary.Some? && IsNullOrWhiteSpace(orderBy) ==>
      r == Success(Unordered(source.value))
    ensures (source.Some? && mappingDictionary.Some? && !IsNullOrWhiteSpace(orderBy)
             && SortKeys(mappingDictionary.value, Split(orderBy.value, ',')).Failure?) ==>
      r == Failure(SortKeys(mappingDictionary.value, Split(orderBy.value, ',')).error)
    ensures (source.Some? && mappingDictionary.Some? && !IsNullOrWhiteSpace(orderBy)
             && SortKeys(mappingDictionary.value, Split(orderBy.value, ',')).Success?) ==>
      r == Success(OrderedBy(source.value, OrderingString(SortKeys(mappingDictionary.value, Split(orderBy.value, ',')).value)))
  {
    if source.None? {
      return Failure(ArgumentNull("source"));
    }
    if mappingDictionary.None? {
      return Failure(ArgumentNull("mappingDictionary"));
    }
    if IsNullOrWhiteSpace(orderBy) {
      return Success(Unordered(source.value));
    }
    var d := mappingDictionary.value;
    var orderByString := "";
    var orderByAfterSplit := Split(orderBy.value, ',');
    ghost var keys: seq<SortKey> := [];
    ghost var done: seq<string> := [];
    var i := 0;
    while i < |orderByAfterSplit|
      invariant 0 <= i <= |orderByAfterSplit|
      invariant done == orderByAfterSplit[..i]
      invariant SortKeys(d, done) == Success(keys)
      invariant orderByString == OrderingString(keys)
    {
      var step := AppendClause(d, orderByAfterSplit[i], orderByString);
      if step.Failure? {
        ClauseFails(d, orderByAfterSplit, i, keys, step.error);
        return Failure(step.error);
      }
      ghost var more := ClauseKeys(d, orderByAfterSplit[i]).value;
      ClauseResolves(d, done, orderByAfterSplit[i], keys, more);
      ExtendedOrdering(keys, more);
      orderByString := step.value;
      keys := keys + more;
      TakeSnoc(orderByAfterSplit, i);
      done := done + [orderByAfterSplit[i]];
      i := i + 1;
    }
    TakeAll(orderByAfterSplit);
    return Success(OrderedBy(source.value, orderByString));
  }

  /**
   * One pass of ApplySort's loop: resolves one clause and appends its levels to
   * the ordering string built so far, or reports the exception the clause raises.
   */
  method AppendClause(d: MappingDictionary, clause: string, orderByString: string)
    returns (r: Result<string, SortError>)
    ensures ClauseKeys(d, clause).Failure? ==> r == Failure(ClauseKeys(d, clause).error)
    ensures ClauseKeys(d, clause).Success? ==> r == Success(Extended(orderByString, ClauseKeys(d, clause).value))
  {
    var trimmedOrderByClause := Trim(clause);
    var orderDescending := EndsWith(trimmedOrderByClause, " desc");
    var indexOfFirstSpace := IndexOf(trimmedOrderByClause, ' ');
    var propertyName := if indexOfFirstSpace == -1 then trimmedOrderByClause
                        else trimmedOrderByClause[..indexOfFirstSpace];
    var found := Lookup(d, propertyName);
    if found.None? {
      return Failure(KeyMappingMissing(propertyName));
    }
    var propertyMappingValue := found.value;
    if propertyMappingValue.NullValue? {
      return Failure(ArgumentNull("propertyMappingValue"));
    }
    if propertyMappingValue.revert {
      orderDescending := !orderDescending;
    }
    var destinations := propertyMappingValue.destinationProperties;
    var s := AppendLevels(destinations, orderDescending, orderByString);
    return Success(s);
  }

  /** The inner loop of ApplySort: one level per destination property, each in the clause's direction. */
  method AppendLevels(destinations: seq<string>, orderDescending: bool, orderByString: string)
    returns (s: string)
    ensures s == Extended(orderByString, DirectedKeys(destinations, orderDescending))
  {
    s := orderByString;
    assert destinations[..0] == [];
    var j := 0;
    while j < |destinations|
      invariant 0 <= j <= |destinations|
      invariant s == Extended(orderByString, DirectedKeys(destinations[..j], orderDescending))
    {
      var next := s
        + (if IsNullOrWhiteSpace(Some(s)) then "" else ", ")
        + destinations[j]
        + (if orderDescending then " descending" else " ascending");
      LevelStep(orderByString, destinations, j, orderDescending, s, next);
      assert next == Extended(orderByString, DirectedKeys(destinations[..j + 1], orderDescending));
      s := next;
      j := j + 1;
    }
    TakeAll(destinations);
  }

  /** A failing clause, reached after the earlier ones resolved, decides the whole result. */
  lemma ClauseFails(d: MappingDictionary, clauses: seq<string>, i: nat, keys: seq<SortKey>, e: SortError)
    requires i < |clauses|
    requires SortKeys(d, clauses[..i]) == Success(keys)
    requires ClauseKeys(d, clauses[i]) == Failure(e)
    ensures SortKeys(d, clauses) == Failure(e)
  {
    TakeSnoc(clauses, i);
    SortKeysAppend(d, clauses[..i], [clauses[i]]);
    SortKeysOne(d, clauses[i]);
    TakeDrop(clauses, i + 1);
    SortKeysAppend(d, clauses[..i + 1], clauses[i + 1..]);
  }

  lemma SortKeysOne(d: MappingDictionary, clause: string)
    ensures SortKeys(d, [clause]) == ClauseKeys(d, clause)
  {
    ClauseOutcomesOne(d, clause);
    CombineAllOne(ClauseKeys(d, clause));
  }

  lemma ClauseOutcomesOne(d: MappingDictionary, clause: string)
    ensures ClauseOutcomes(d, [clause]) == [ClauseKeys(d, clause)]
  {
  }

  lemma CombineAllOne(r: Result<seq<SortKey>, SortError>)
    ensures CombineAll([r]) == r
  {
    assert [r][..0] == [];
    match r {
      case Failure(_) =>
      case Success(x) => assert [] + x == x;
    }
  }

  lemma DirectedKeysSnoc(destinations: seq<string>, j: nat, descending: bool)
    requires j < |destinations|
    ensures DirectedKeys(destinations[..j + 1], descending) == DirectedKeys(destinations[..j], descending) + [SortKey(destinations[j], descending)]
  {
    assert destinations[..j + 1][..j] == destinations[..j];
  }

  /** A resolving clause extends the levels of the clauses before it. */
  lemma ClauseResolves(d: MappingDictionary, done: seq<string>, clause: string, keys: seq<SortKey>, more: seq<SortKey>)
    requires SortKeys(d, done) == Success(keys)
    requires ClauseKeys(d, clause) == Success(more)
    ensures SortKeys(d, done + [clause]) == Success(keys + more)
  {
    SortKeysAppend(d, done, [clause]);
    SortKeysOne(d, clause);
  }

  /** One pass of the inner loop appends exactly the text of the next level. */
  lemma LevelStep(base: string, destinations: seq<string>, j: nat, descending: bool, s: string, next: string)
    requires j < |destinations|
    requires s == Extended(base, DirectedKeys(destinations[..j], descending))
    requires next == s + (if IsNullOrWhiteSpace(Some(s)) then "" else ", ")
                      + destinations[j] + (if descending then " descending" else " ascending")
    ensures next == Extended(base, DirectedKeys(destinations[..j + 1], descending))
  {
    DirectedKeysSnoc(destinations, j, descending);
    var ks := DirectedKeys(destinations[..j + 1], descending);
    assert ks[..|ks| - 1] == DirectedKeys(destinations[..j], descending);
    var sep := if IsNullOrWhiteSpace(Some(s)) then "" else ", ";
    AppendAssoc(s + sep, destinations[j], if descending then " descending" else " ascending");
  }

  /**
   * Appending levels to the ordering string of earlier levels, the way the
   * loop does, gives the ordering string of all the levels: the separator
   * test on the text built so far puts ", " exactly between levels.
   */
  lemma {:induction false} ExtendedOrdering(keys: seq<SortKey>, more: seq<SortKey>)
    ensures Extended(OrderingString(keys), more) == OrderingString(keys + more)
    decreases |more|
  {
    if more == [] {
      assert keys + more == keys;
    } else {
      var front, k := more[..|more| - 1], more[|more| - 1];
      ExtendedOrdering(keys, front);
      assert more == front + [k];
      AppendAssoc(keys, front, [k]);
      OrderingStringSnoc(keys + front, k);
      OrderingStringBlank(keys + front);
    }
  }

  lemma {:induction false} CombineAllAppend(a: seq<Result<seq<SortKey>, SortError>>, b: seq<Result<seq<SortKey>, SortError>>)
    ensures CombineAll(a + b) == Combine(CombineAll(a), CombineAll(b))
    decreases |b|
  {
    if b == [] {
      assert a + b == a;
      match CombineAll(a) {
        case Failure(_) =>
        case Success(x) => assert x + [] == x;
      }
    } else {
      var b' := b[..|b| - 1];
      assert (a + b)[..|a + b| - 1] == a + b';
      assert (a + b)[|a + b| - 1] == b[|b| - 1];
      CombineAllAppend(a, b');
      match CombineAll(a) {
        case Failure(_) =>
        case Success(x) =>
          match CombineAll(b') {
            case Failure(_) =>
            case Success(y) =>
              match b[|b| - 1] {
                case Failure(_) =>
                case Success(z) => assert x + y + z == x + (y + z);
              }
          }
      }
    }
  }

  lemma {:induction false} CombineAllSucceeds(rs: seq<Result<seq<SortKey>, SortError>>)
    ensures CombineAll(rs).Success? <==> forall i :: 0 <= i < |rs| ==> rs[i].Success?
    decreases |rs|
  {
    if rs != [] {
      var n := |rs| - 1;
      CombineAllSucceeds(rs[..n]);
      assert forall i :: 0 <= i < n ==> rs[..n][i] == rs[i];
    }
  }

  lemma ClauseOutcomesAppend(d: MappingDictionary, a: seq<string>, b: seq<string>)
    ensures ClauseOutcomes(d, a + b) == ClauseOutcomes(d, a) + ClauseOutcomes(d, b)
  {
    MapAppend(Outcome(d), a, b);
  }

  /** Sorting by the clauses of `a` then those of `b` is sorting by `a` followed by `b`. */
  lemma SortKeysAppend(d: MappingDictionary, a: seq<string>, b: seq<string>)
    ensures SortKeys(d, a + b) == Combine(SortKeys(d, a), SortKeys(d, b))
  {
    ClauseOutcomesAppend(d, a, b);
    CombineAllAppend(ClauseOutcomes(d, a), ClauseOutcomes(d, b));
  }

  /** The whole request fails iff some clause fails: no ordering is ever partial. */
  lemma SortKeysSucceeds(d: MappingDictionary, clauses: seq<string>)
    ensures SortKeys(d, clauses).Success? <==> forall i :: 0 <= i < |clauses| ==> ClauseKeys(d, clauses[i]).Success?
  {
    var rs := ClauseOutcomes(d, clauses);
    CombineAllSucceeds(rs);
    assert forall i :: 0 <= i < |clauses| ==> rs[i] == ClauseKeys(d, clauses[i]);
  }

  /** Composition: the ordering for "a,b" is the ordering for "a" followed by the ordering for "b". */
  lemma OrderByComposition(d: MappingDictionary, a: string, b: string)
    ensures SortKeys(d, Split(a + "," + b, ',')) == Combine(SortKeys(d, Split(a, ',')), SortKeys(d, Split(b, ',')))
  {
    SplitAppend(a, b, ',');
    SortKeysAppend(d, Split(a, ','), Split(b, ','));
  }

  /** Appending a level adds ", " and its text, with no separator before the first level. */
  lemma OrderingStringSnoc(keys: seq<SortKey>, k: SortKey)
    ensures OrderingString(keys + [k]) == (if keys == [] then "" else OrderingString(keys) + ", ") + Render(k)
  {
    assert (keys + [k])[..|keys|] == keys;
  }

  /** The ordering string of two non-empty level lists is theirs joined by ", ". */
  lemma {:induction false} OrderingStringAppend(a: seq<SortKey>, b: seq<SortKey>)
    requires a != [] && b != []
    ensures OrderingString(a + b) == OrderingString(a) + ", " + OrderingString(b)
    decreases |b|
  {
    var b', last := b[..|b| - 1], b[|b| - 1];
    AppendFront(a, b);
    AppendAssoc(a, b', [last]);
    OrderingStringSnoc(a + b', last);
    OrderingStringSnoc(b', last);
    var tail := ", " + Render(last);
    if b' == [] {
      assert a + b' == a;
      AppendAssoc(OrderingString(a), ", ", Render(last));
    } else {
      OrderingStringAppend(a, b');
      calc {
        OrderingString(a + b);
        OrderingString(a + b') + tail;
        (OrderingString(a) + ", " + OrderingString(b')) + tail;
        { AppendAssoc(OrderingString(a) + ", ", OrderingString(b'), tail); }
        OrderingString(a) + ", " + (OrderingString(b') + tail);
        { AppendAssoc(OrderingString(b'), ", ", Render(last)); }
        OrderingString(a) + ", " + OrderingString(b);
      }
    }
  }

  /** The ordering string is blank exactly when there are no levels (it then ends in "ascending" or "descending"). */
  lemma OrderingStringBlank(keys: seq<SortKey>)
    ensures IsNullOrWhiteSpace(Some(OrderingString(keys))) <==> keys == []
  {
    if keys != [] {
      OrderingStringEndsWithLast(keys);
      var s := OrderingString(keys);
      assert !IsWhiteSpace(s[|s| - 1]);
      if AllWhiteSpace(s) {
        AllWhiteSpaceAt(s, |s| - 1);
      }
    }
  }

  lemma {:induction false} OrderingStringEndsWithLast(keys: seq<SortKey>)
    requires keys != []
    ensures EndsWith(OrderingString(keys), Render(keys[|keys| - 1]))
    decreases |keys|
  {
    if |keys| > 1 {
      var front := keys[..|keys| - 1];
      assert keys == front + [keys[|keys| - 1]];
      OrderingStringSnoc(front, keys[|keys| - 1]);
    }
  }

  /** A clause without a comma is the whole request: its outcome decides the result alone. */
  lemma SingleClause(d: MappingDictionary, clause: string)
    requires ',' !in clause
    ensures SortKeys(d, Split(clause, ',')) == ClauseKeys(d, clause)
  {
    SplitNoSeparator(clause, ',');
    SortKeysOne(d, clause);
  }

  /**
   * A clause written as a property name, one space and a direction word, with
   * any white-space padding: the name is looked up as written, and the
   * direction is descending exactly when the word is "desc" (so "DESC" and
   * "asc" are ascending), flipped when the mapping reverts it.
   */
  lemma ClauseWithDirection(d: MappingDictionary, pre: string, name: string, word: string, post: string)
    requires AllWhiteSpace(pre) && AllWhiteSpace(post)
    requires name != [] && ' ' !in name && !IsWhiteSpace(name[0])
    requires word != [] && ' ' !in word && !IsWhiteSpace(word[|word| - 1])
    ensures ClauseKeys(d, pre + name + " " + word + post) ==
      (match Lookup(d, name)
       case None => Failure(KeyMappingMissing(name))
       case Some(NullValue) => Failure(ArgumentNull("propertyMappingValue"))
       case Some(MappingValue(destinations, revert)) => Success(DirectedKeys(destinations, (word == "desc") != revert)))
  {
    var x := name + " " + word;
    assert x[0] == name[0] && x[|x| - 1] == word[|word| - 1];
    assert pre + name + " " + word + post == pre + x + post;
    TrimPadded(pre, x, post);
    TrimmedClauseWithDirection(d, pre + x + post, name, word);
  }

  lemma TrimmedClauseWithDirection(d: MappingDictionary, clause: string, name: string, word: string)
    requires ' ' !in name && ' ' !in word
    requires Trim(clause) == name + " " + word
    ensures ClauseKeys(d, clause) ==
      (match Lookup(d, name)
       case None => Failure(KeyMappingMissing(name))
       case Some(NullValue) => Failure(ArgumentNull("propertyMappingValue"))
       case Some(MappingValue(destinations, revert)) => Success(DirectedKeys(destinations, (word == "desc") != revert)))
  {
    NameBeforeSpace(name, word);
    DescWord(name, word);
  }

  lemma NameBeforeSpace(name: string, word: string)
    requires ' ' !in name
    ensures PropertyName(name + " " + word) == name
  {
    var x := name + " " + word;
    assert x[|name|] == ' ';
    assert x[..|name|] == name;
  }

  lemma DescWord(name: string, word: string)
    requires ' ' !in word
    ensures OrdersDescending(name + " " + word) <==> word == "desc"
  {
    var x := name + " " + word;
    assert x[|name|] == ' ';
    assert x[|name| + 1..] == word;
    if |word| >= 5 {
      assert x[|x| - 5] == word[|word| - 5];
    } else if |word| == 4 {
      assert x[|x| - 4..] == word;
    } else if |x| >= 5 {
      assert x[|x| - 5..][4 - |word|] == x[|name|];
    }
  }

  /** The mapping table of the repository tests: keys compared case-insensitively. */
  const TestMapping: MappingDictionary := [
    ("Id", MappingValue(["Id"], false)),
    ("MainCategory", MappingValue(["MainCategory"], false)),
    ("Age", MappingValue(["DateOfBirth"], true)),
    ("Name", MappingValue(["FirstName", "LastName"], false))
  ]

  /** Looking up the test table: keys match whatever the case of the request. */
  lemma TestMappingLookups()
    ensures Lookup(TestMapping, "name") == Some(MappingValue(["FirstName", "LastName"], false))
    ensures Lookup(TestMapping, "age") == Some(MappingValue(["DateOfBirth"], true))
    ensures Lookup(TestMapping, "") == None
  {
    assert Fold("Name") == Fold("name");
    assert Fold("Age") == Fold("age");
  }

  /** A clause of one word, padded or not, names its property and sorts ascending before the revert. */
  lemma TrimmedBareClause(d: MappingDictionary, clause: string, name: string)
    requires ' ' !in name
    requires Trim(clause) == name
    ensures ClauseKeys(d, clause) ==
      (match Lookup(d, name)
       case None => Failure(KeyMappingMissing(name))
       case Some(NullValue) => Failure(ArgumentNull("propertyMappingValue"))
       case Some(MappingValue(destinations, revert)) => Success(DirectedKeys(destinations, revert)))
  {
    BareWord(name);
  }

  /** A word without spaces is its own property name and does not end with " desc". */
  lemma BareWord(name: string)
    requires ' ' !in name
    ensures PropertyName(name) == name && !OrdersDescending(name)
  {
    if |name| >= 5 {
      assert name[|name| - 5] in name;
    }
  }

  // Character-level facts about the literal requests, kept apart so that each stays cheap to prove.

  lemma NameDescText()
    ensures ' ' !in "name" && ' ' !in "desc" && ',' !in "name desc"
  {
  }

  lemma NameDescTrimmed()
    ensures Trim("name desc") == "name" + " " + "desc"
  {
    assert IsTrimmed("name desc");
    TrimPadded("", "name desc", "");
    assert "" + "name desc" + "" == "name" + " " + "desc";
  }

  lemma NameUpperDescText()
    ensures ' ' !in "name" && ' ' !in "DESC" && ',' !in "name DESC"
  {
  }

  lemma NameUpperDescTrimmed()
    ensures Trim("name DESC") == "name" + " " + "DESC"
  {
    assert IsTrimmed("name DESC");
    TrimPadded("", "name DESC", "");
    assert "" + "name DESC" + "" == "name" + " " + "DESC";
  }

  lemma AgeText()
    ensures ' ' !in "age" && ',' !in "age" && Trim("age") == "age"
  {
    assert IsTrimmed("age");
    TrimPadded("", "age", "");
    assert "" + "age" + "" == "age";
  }

  lemma RenderedLevels()
    ensures Render(SortKey("FirstName", true)) + ", " + Render(SortKey("LastName", true)) == "FirstName descending, LastName descending"
  {
    assert Render(SortKey("FirstName", true)) == "FirstName descending";
    assert Render(SortKey("LastName", true)) == "LastName descending";
  }

  lemma NameDescKeys()
    ensures DirectedKeys(["FirstName", "LastName"], true) == [SortKey("FirstName", true), SortKey("LastName", true)]
    ensures DirectedKeys(["FirstName", "LastName"], false) == [SortKey("FirstName", false), SortKey("LastName", false)]
  {
    assert ["FirstName", "LastName"][..1] == ["FirstName"];
  }

  /** With the test table, "name desc" sorts by first name, then last name, both descending. */
  lemma NameDescScenario()
    ensures SortKeys(TestMapping, Split("name desc", ',')) == Success([SortKey("FirstName", true), SortKey("LastName", true)])
  {
    TestMappingLookups();
    NameDescText();
    NameDescTrimmed();
    NameDescKeys();
    TrimmedClauseWithDirection(TestMapping, "name desc", "name", "desc");
    SingleClause(TestMapping, "name desc");
  }

  /** ... and the sort spec handed to the query is "FirstName descending, LastName descending". */
  lemma NameDescOrdering()
    ensures OrderingString([SortKey("FirstName", true), SortKey("LastName", true)]) == "FirstName descending, LastName descending"
  {
    var k1, k2 := SortKey("FirstName", true), SortKey("LastName", true);
    OrderingStringSnoc([], k1);
    OrderingStringSnoc([k1], k2);
    assert [] + [k1] == [k1];
    RenderedLevels();
  }

  /** The direction word is case-sensitive: "name DESC" sorts ascending. */
  lemma NameUpperDescScenario()
    ensures SortKeys(TestMapping, Split("name DESC", ',')) == Success([SortKey("FirstName", false), SortKey("LastName", false)])
  {
    TestMappingLookups();
    NameUpperDescText();
    NameUpperDescTrimmed();
    NameDescKeys();
    TrimmedClauseWithDirection(TestMapping, "name DESC", "name", "DESC");
    SingleClause(TestMapping, "name DESC");
  }

  /** With the test table, "age" sorts by date of birth descending: the mapping reverts the direction. */
  lemma AgeScenario()
    ensures SortKeys(TestMapping, Split("age", ',')) == Success([SortKey("DateOfBirth", true)])
  {
    TestMappingLookups();
    AgeText();
    assert DirectedKeys(["DateOfBirth"], true) == [SortKey("DateOfBirth", true)];
    TrimmedBareClause(TestMapping, "age", "age");
    SingleClause(TestMapping, "age");
  }

  /** ... and the sort spec is "DateOfBirth descending". */
  lemma AgeOrdering()
    ensures OrderingString([SortKey("DateOfBirth", true)]) == "DateOfBirth descending"
  {
    OrderingStringSnoc([], SortKey("DateOfBirth", true));
    assert [] + [SortKey("DateOfBirth", true)] == [SortKey("DateOfBirth", true)];
  }
  /**
   * A request ending in a comma always fails: the empty clause after the comma
   * names no property (no mapping key is empty), and when the clauses before it
   * resolve, the error names the empty property.
   */
  lemma TrailingCommaFails(d: MappingDictionary, orderBy: string)
    requires Lookup(d, "") == None
    ensures SortKeys(d, Split(orderBy + ",", ',')).Failure?
    ensures SortKeys(d, Split(orderBy, ',')).Success? ==>
      SortKeys(d, Split(orderBy + ",", ',')) == Failure(KeyMappingMissing(""))
  {
    assert orderBy + "," == orderBy + [','] + "";
    SplitAppend(orderBy, "", ',');
    SortKeysAppend(d, Split(orderBy, ','), Split("", ','));
    TrimPadded("", "", "");
    SortKeysOne(d, "");
  }
}
