/**
 * PropertyCheckerService.TypeHasProperties
 * (CourseLibrary.API/Services/PropertyCheckerService.cs): the check the
 * controllers run on a `fields` request parameter before shaping data with
 * it. The service holds no state; the check reads nothing but its arguments.
 */
module PropertyChecker {
  import opened Wrappers
  import opened Strings
  import opened Sequences
  import opened EnumerableExtensions

  /** Every name stands for a declared property. */
  predicate AllNamesExist(props: seq<string>, names: seq<string>) {
    forall i :: 0 <= i < |names| ==> GetProperty(props, names[i]).Some?
  }

  /** Reference definition: blank fields, or every trimmed comma-separated token names a property. */
  predicate FieldsExist(props: seq<string>, fields: Option<string>) {
    IsNullOrWhiteSpace(fields) || AllNamesExist(props, FieldNames(fields.value))
  }

  /** TypeHasProperties: stops at the first token that names no property. */
  method TypeHasProperties(props: seq<string>, fields: Option<string>) returns (r: bool)
    ensures r == FieldsExist(props, fields)
  {
    if IsNullOrWhiteSpace(fields) {
      return true;
    }
    var fieldsAfterSplit := Split(fields.value, ',');
    ghost var names := FieldNames(fields.value);
    assert |names| == |fieldsAfterSplit|;
    var i := 0;
    while i < |fieldsAfterSplit|
      invariant 0 <= i <= |fieldsAfterSplit|
      invariant AllNamesExist(props, names[..i])
    {
      var propertyName := Trim(fieldsAfterSplit[i]);
      var propertyInfo := GetProperty(props, propertyName);
      assert names[i] == propertyName;
      if propertyInfo.None? {
        return false;
      }
      AllNamesExistSnoc(props, names, i);
      i := i + 1;
    }
    TakeAll(names);
    return true;
  }

  lemma AllNamesExistSnoc(props: seq<string>, names: seq<string>, i: nat)
    requires i < |names| && AllNamesExist(props, names[..i]) && GetProperty(props, names[i]).Some?
    ensures AllNamesExist(props, names[..i + 1])
  {
  }

  /** The check accepts exactly the field lists whose resolution in ShapeData throws no missing-property error. */
  lemma CheckAgreesWithShapeData(props: seq<string>, fields: Option<string>)
    ensures FieldsExist(props, fields) <==> ResolveFields(props, fields).Success?
  {
    if !IsNullOrWhiteSpace(fields) {
      ResolveMeaning(props, FieldNames(fields.value));
    }
  }

  /** A token that is empty or only white space (as in "id,,name" or "id, ") is never a property. */
  lemma BlankTokenRejected(props: seq<string>, fields: string, i: nat)
    requires ValidType(props)
    requires !AllWhiteSpace(fields)
    requires i < |Split(fields, ',')| && AllWhiteSpace(Split(fields, ',')[i])
    ensures !FieldsExist(props, Some(fields))
  {
    EmptyNameMissing(props);
    assert FieldNames(fields)[i] == Trim(Split(fields, ',')[i]) == "";
  }

  /** A trailing comma leaves an empty last token, so the check fails. */
  lemma TrailingCommaRejected(props: seq<string>, fields: string)
    requires ValidType(props)
    ensures !FieldsExist(props, Some(fields + ","))
  {
    var s := fields + ",";
    assert s == fields + [','] + "";
    SplitAppend(fields, "", ',');
    AllWhiteSpaceNot(s, |fields|);
    BlankTokenRejected(props, s, |Split(fields, ',')|);
  }


  /**
   * Only which names are requested matters: two lists of names with the same
   * members, in any order and repeated any number of times, get the same
   * answer.
   */
  lemma CheckIgnoresOrderAndRepeats(props: seq<string>, a: seq<string>, b: seq<string>)
    requires forall n :: n in a <==> n in b
    ensures AllNamesExist(props, a) == AllNamesExist(props, b)
  {
    if AllNamesExist(props, a) {
      forall j | 0 <= j < |b|
        ensures GetProperty(props, b[j]).Some?
      {
        assert b[j] in a;
        var i :| 0 <= i < |a| && a[i] == b[j];
      }
    }
    if AllNamesExist(props, b) {
      forall j | 0 <= j < |a|
        ensures GetProperty(props, a[j]).Some?
      {
        assert a[j] in b;
        var i :| 0 <= i < |b| && b[i] == a[j];
      }
    }
  }

  /**
   * The same holds of the `fields` text the service receives: two non-blank
   * field lists whose trimmed tokens have the same members get the same
   * answer. Blank lists are excluded because the check passes them before
   * splitting: " " passes while "," (two empty tokens) fails.
   */
  lemma FieldsIgnoreOrderAndRepeats(props: seq<string>, f: string, g: string)
    requires !IsNullOrWhiteSpace(Some(f)) && !IsNullOrWhiteSpace(Some(g))
    requires forall n :: n in FieldNames(f) <==> n in FieldNames(g)
    ensures FieldsExist(props, Some(f)) == FieldsExist(props, Some(g))
  {
    CheckIgnoresOrderAndRepeats(props, FieldNames(f), FieldNames(g));
  }

  /**
   * A property requested twice, under any spellings that match it (such as
   * "id,Id" or "id,id"), passes the check and resolves to the property twice;
   * ShapeData then succeeds on an empty source but throws on the duplicate
   * key of the first object of any other.
   */
  lemma DuplicateFieldAcceptedThenRejected<V>(props: seq<string>, p: string, a: string, b: string, objects: seq<Object<V>>)
    requires ValidType(props) && p in props
    requires EqualsIgnoreCase(p, a) && EqualsIgnoreCase(p, b)
    requires ',' !in a && ',' !in b && IsTrimmed(a) && IsTrimmed(b) && a != []
    requires AllHave(objects, props)
    ensures FieldsExist(props, Some(a + "," + b))
    ensures ResolveFields(props, Some(a + "," + b)) == Success([p, p])
    ensures objects == [] ==> Shape(Some(objects), props, Some(a + "," + b)) == Success([])
    ensures objects != [] ==> Shape(Some(objects), props, Some(a + "," + b)) == Failure(DuplicateKey(p))
  {
    var fields := a + "," + b;
    DuplicateFieldNames(a, b);
    GetPropertyUnique(props, p, a);
    GetPropertyUnique(props, p, b);
    ResolvePair(props, a, b, p);
    CheckAgreesWithShapeData(props, Some(fields));
    RepeatedPropertyShape(objects, props, Some(fields), p);
  }

  lemma ResolvePair(props: seq<string>, a: string, b: string, p: string)
    requires GetProperty(props, a) == Some(p) && GetProperty(props, b) == Some(p)
    ensures Resolve(props, [a, b]) == Success([p, p])
  {
    assert [a, b][..1] == [a];
    assert [a][..0] == [];
    assert Resolve(props, []) == Success([]);
    assert Resolve(props, [a]) == Success([] + [p]);
    assert Resolve(props, [a, b]) == Success([] + [p] + [p]);
    assert [] + [p] + [p] == [p, p];
  }

  lemma RepeatedPropertyShape<V>(objects: seq<Object<V>>, props: seq<string>, fields: Option<string>, p: string)
    requires AllHave(objects, props)
    requires ResolveFields(props, fields) == Success([p, p])
    ensures objects == [] ==> Shape(Some(objects), props, fields) == Success([])
    ensures objects != [] ==> Shape(Some(objects), props, fields) == Failure(DuplicateKey(p))
  {
    assert AllHave(objects, [p, p]);
    ProjectAllRecords(objects, [p, p]);
    assert [p, p][0] == [p, p][1];
    if objects != [] {
      ProjectEntries(objects[0], [p, p]);
      assert multiset([p, p])[p] == 2;
    }
  }

  /** The tokens of "a,b" for two trimmed comma-free names are the names themselves. */
  lemma DuplicateFieldNames(a: string, b: string)
    requires ',' !in a && ',' !in b && IsTrimmed(a) && IsTrimmed(b) && a != []
    ensures !AllWhiteSpace(a + "," + b)
    ensures FieldNames(a + "," + b) == [a, b]
  {
    var fields := a + "," + b;
    assert fields[|a|] == ',';
    AllWhiteSpaceNot(fields, |a|);
    SplitTwo(a, b);
    TrimmedUnchanged(a);
    TrimmedUnchanged(b);
    MapPair(Trim, a, b);
  }

  lemma SplitTwo(a: string, b: string)
    requires ',' !in a && ',' !in b
    ensures Split(a + "," + b, ',') == [a, b]
  {
    assert a + "," + b == a + [','] + b;
    SplitAppend(a, b, ',');
    SplitNoSeparator(a, ',');
    SplitNoSeparator(b, ',');
  }
}
