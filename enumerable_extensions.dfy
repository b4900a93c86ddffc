/**
 * ShapeData (CourseLibrary.API/Helpers/IEnumerableExtensions.cs): projects
 * every object of a collection onto a client-chosen list of its properties.
 * Reflection is replaced by an explicit list of property names for the type
 * and a map from property name to value for each object; the dynamic
 * `ExpandoObject` record is an insertion-ordered list of entries.
 */
module EnumerableExtensions {
  import opened Wrappers
  import opened Strings
  import opened Sequences

  /**
   * The public instance properties reflection reports for a type, in
   * declaration order. Property names are never empty and no two differ only
   * in case, so a case-insensitive lookup is never ambiguous.
   */
  predicate ValidType(props: seq<string>) {
    (forall i :: 0 <= i < |props| ==> props[i] != [])
    && (forall i, j :: 0 <= i < j < |props| ==> Fold(props[i]) != Fold(props[j]))
  }

  /** An instance of the type: the value of each of its properties. */
  type Object<V> = map<string, V>

  predicate HasProperties<V>(o: Object<V>, ps: seq<string>) {
    forall p :: p in ps ==> p in o
  }

  /** A shaped record (`ExpandoObject`): its entries in the order they were added. */
  type Record<V> = seq<(string, V)>

  function Keys<V>(r: Record<V>): seq<string> {
    seq(|r|, i requires 0 <= i < |r| => r[i].0)
  }

  /** The exceptions ShapeData throws. */
  datatype ShapeError =
    | SourceNull
    | PropertyNotFound(propertyName: string)
    | DuplicateKey(key: string)

  predicate Distinct(ps: seq<string>) {
    forall i, j :: 0 <= i < j < |ps| ==> ps[i] != ps[j]
  }

  /**
   * `typeof(T).GetProperty(name, IgnoreCase | Public | Instance)`: the
   * declared property whose name equals `name` ignoring case, or null.
   */
  function GetProperty(props: seq<string>, name: string): (p: Option<string>)
    ensures p.Some? ==> p.value in props && EqualsIgnoreCase(p.value, name)
    ensures p.None? <==> forall q :: q in props ==> !EqualsIgnoreCase(q, name)
    decreases |props|
  {
    if props == [] then None
    else if EqualsIgnoreCase(props[0], name) then Some(props[0])
    else
      var p := GetProperty(props[1..], name);
      assert forall q :: q in props ==> q == props[0] || q in props[1..];
      p
  }

  /** No property answers to the empty name: the empty token of "id," or ",," never resolves. */
  lemma EmptyNameMissing(props: seq<string>)
    requires ValidType(props)
    ensures GetProperty(props, "") == None
  {
    forall q | q in props
      ensures !EqualsIgnoreCase(q, "")
    {
      assert |Fold(q)| == |q| > 0;
    }
  }

  /** `IDictionary.Add` on an `ExpandoObject`: an existing key (compared ordinally) throws. */
  function Add<V>(r: Record<V>, key: string, value: V): Result<Record<V>, ShapeError> {
    if key in Keys(r) then Failure(DuplicateKey(key)) else Success(r + [(key, value)])
  }

  /** The trimmed tokens of a comma-separated field list, empty ones included. */
  function FieldNames(fields: string): seq<string> {
    Map(Trim, Split(fields, ','))
  }

  /** The declared properties the names stand for, in order; the first unknown name is the error. */
  function Resolve(props: seq<string>, names: seq<string>): (r: Result<seq<string>, ShapeError>)
    ensures r.Success? ==> forall p :: p in r.value ==> p in props
    decreases |names|
  {
    if names == [] then Success([])
    else
      match Resolve(props, names[..|names| - 1])
      case Failure(e) => Failure(e)
      case Success(ps) =>
        var name := names[|names| - 1];
        match GetProperty(props, name)
        case None => Failure(PropertyNotFound(name))
        case Some(p) => Success(ps + [p])
  }

  /** The property list ShapeData fixes before it looks at any object. */
  function ResolveFields(props: seq<string>, fields: Option<string>): (r: Result<seq<string>, ShapeError>)
    ensures r.Success? ==> forall p :: p in r.value ==> p in props
  {
    if IsNullOrWhiteSpace(fields) then Success(props) else Resolve(props, FieldNames(fields.value))
  }

  /** The record built for one object by adding its properties one by one. */
  function Project<V>(o: Object<V>, ps: seq<string>): Result<Record<V>, ShapeError>
    requires HasProperties(o, ps)
    decreases |ps|
  {
    if ps == [] then Success([])
    else
      var front := ps[..|ps| - 1];
      var last := ps[|ps| - 1];
      assert forall p :: p in front ==> p in ps;
      match Project(o, front)
      case Failure(e) => Failure(e)
      case Success(r) => Add(r, last, o[last])
  }

  /** Reference definition of a shaped record: each listed property with the object's value for it. */
  function Entries<V>(o: Object<V>, ps: seq<string>): Record<V>
    requires HasProperties(o, ps)
  {
    seq(|ps|, i requires 0 <= i < |ps| => (ps[i], o[ps[i]]))
  }

  predicate AllHave<V>(objects: seq<Object<V>>, ps: seq<string>) {
    forall k :: 0 <= k < |objects| ==> HasProperties(objects[k], ps)
  }

  /** The records of the objects, in order; the first object whose record fails decides the error. */
  function ProjectAll<V>(objects: seq<Object<V>>, ps: seq<string>): Result<seq<Record<V>>, ShapeError>
    requires AllHave(objects, ps)
    decreases |objects|
  {
    if objects == [] then Success([])
    else
      match ProjectAll(objects[..|objects| - 1], ps)
      case Failure(e) => Failure(e)
      case Success(rs) =>
        match Project(objects[|objects| - 1], ps)
        case Failure(e) => Failure(e)
        case Success(r) => Success(rs + [r])
  }

  /** What ShapeData returns or throws. */
  function Shape<V>(source: Option<seq<Object<V>>>, props: seq<string>, fields: Option<string>): Result<seq<Record<V>>, ShapeError>
    requires source.Some? ==> AllHave(source.value, props)
  {
    if source.None? then Failure(SourceNull)
    else
      match ResolveFields(props, fields)
      case Failure(e) => Failure(e)
      case Success(ps) =>
        assert AllHave(source.value, ps);
        ProjectAll(source.value, ps)
  }

  /**
   * ShapeData. The property list is resolved once; each object is then
   * projected onto it in turn.
   */
  method ShapeData<V>(source: Option<seq<Object<V>>>, props: seq<string>, fields: Option<string>)
    returns (r: Result<seq<Record<V>>, ShapeError>)
    requires source.Some? ==> AllHave(source.value, props)
    ensures r == Shape(source, props, fields)
  {
    if source.None? {
      return Failure(SourceNull);
    }
    var propertyInfoList: seq<string>;
    if IsNullOrWhiteSpace(fields) {
      propertyInfoList := props;
    } else {
      var fieldsAfterSplit := Split(fields.value, ',');
      var resolved := ResolveFieldList(props, fieldsAfterSplit);
      if resolved.Failure? {
        return Failure(resolved.error);
      }
      propertyInfoList := resolved.value;
    }
    assert AllHave(source.value, propertyInfoList);
    r := ShapeObjects(source.value, propertyInfoList);
  }

  /** The resolution loop: one declared property per token, or the first token that names none. */
  method ResolveFieldList(props: seq<string>, fieldsAfterSplit: seq<string>) returns (r: Result<seq<string>, ShapeError>)
    ensures r == Resolve(props, Map(Trim, fieldsAfterSplit))
  {
    ghost var names := Map(Trim, fieldsAfterSplit);
    var propertyInfoList := [];
    var i := 0;
    while i < |fieldsAfterSplit|
      invariant 0 <= i <= |fieldsAfterSplit|
      invariant Resolve(props, names[..i]) == Success(propertyInfoList)
    {
      var propertyName := Trim(fieldsAfterSplit[i]);
      var propertyInfo := GetProperty(props, propertyName);
      TakeFront(names, i);
      assert names[i] == propertyName;
      if propertyInfo.None? {
        ResolvePrefixFailure(props, names, i + 1);
        return Failure(PropertyNotFound(propertyName));
      }
      assert Resolve(props, names[..i + 1]) == Success(propertyInfoList + [propertyInfo.value]);
      propertyInfoList := propertyInfoList + [propertyInfo.value];
      i := i + 1;
    }
    TakeAll(names);
    return Success(propertyInfoList);
  }

  /** The outer loop: one record per object, in source order. */
  method ShapeObjects<V>(objects: seq<Object<V>>, propertyInfoList: seq<string>) returns (r: Result<seq<Record<V>>, ShapeError>)
    requires AllHave(objects, propertyInfoList)
    ensures r == ProjectAll(objects, propertyInfoList)
  {
    var expandoObjectList := [];
    var k := 0;
    while k < |objects|
      invariant 0 <= k <= |objects|
      invariant AllHave(objects[..k], propertyInfoList)
      invariant ProjectAll(objects[..k], propertyInfoList) == Success(expandoObjectList)
    {
      var dataShapedObject := ShapeObject(objects[k], propertyInfoList);
      TakeFront(objects, k);
      assert AllHave(objects[..k + 1], propertyInfoList);
      if dataShapedObject.Failure? {
        ProjectAllPrefixFailure(objects, propertyInfoList, k + 1);
        return Failure(dataShapedObject.error);
      }
      expandoObjectList := expandoObjectList + [dataShapedObject.value];
      k := k + 1;
    }
    TakeAll(objects);
    return Success(expandoObjectList);
  }

  /** The inner loop: the object's value for each listed property, added to a fresh record. */
  method ShapeObject<V>(o: Object<V>, propertyInfoList: seq<string>) returns (r: Result<Record<V>, ShapeError>)
    requires HasProperties(o, propertyInfoList)
    ensures r == Project(o, propertyInfoList)
  {
    var dataShapedObject: Record<V> := [];
    var j := 0;
    while j < |propertyInfoList|
      invariant 0 <= j <= |propertyInfoList|
      invariant HasProperties(o, propertyInfoList[..j])
      invariant Project(o, propertyInfoList[..j]) == Success(dataShapedObject)
    {
      var propertyValue := o[propertyInfoList[j]];
      var added := Add(dataShapedObject, propertyInfoList[j], propertyValue);
      TakeFront(propertyInfoList, j);
      assert HasProperties(o, propertyInfoList[..j + 1]);
      if added.Failure? {
        ProjectPrefixFailure(o, propertyInfoList, j + 1);
        return Failure(added.error);
      }
      dataShapedObject := added.value;
      j := j + 1;
    }
    TakeAll(propertyInfoList);
    return Success(dataShapedObject);
  }

  /** Once a prefix of the names fails, the whole list fails the same way. */
  lemma {:induction false} ResolvePrefixFailure(props: seq<string>, names: seq<string>, i: nat)
    requires i <= |names|
    requires Resolve(props, names[..i]).Failure?
    ensures Resolve(props, names) == Resolve(props, names[..i])
    decreases |names| - i
  {
    if i == |names| {
      TakeAll(names);
    } else {
      TakeFront(names, i);
      ResolvePrefixFailure(props, names, i + 1);
    }
  }

  lemma {:induction false} ProjectPrefixFailure<V>(o: Object<V>, ps: seq<string>, j: nat)
    requires j <= |ps| && HasProperties(o, ps)
    requires HasProperties(o, ps[..j]) && Project(o, ps[..j]).Failure?
    ensures Project(o, ps) == Project(o, ps[..j])
    decreases |ps| - j
  {
    if j == |ps| {
      TakeAll(ps);
    } else {
      TakeFront(ps, j);
      assert HasProperties(o, ps[..j + 1]);
      ProjectPrefixFailure(o, ps, j + 1);
    }
  }

  lemma {:induction false} ProjectAllPrefixFailure<V>(objects: seq<Object<V>>, ps: seq<string>, k: nat)
    requires k <= |objects| && AllHave(objects, ps)
    requires AllHave(objects[..k], ps) && ProjectAll(objects[..k], ps).Failure?
    ensures ProjectAll(objects, ps) == ProjectAll(objects[..k], ps)
    decreases |objects| - k
  {
    if k == |objects| {
      TakeAll(objects);
    } else {
      TakeFront(objects, k);
      assert AllHave(objects[..k + 1], ps);
      ProjectAllPrefixFailure(objects, ps, k + 1);
    }
  }

  /**
   * Resolution succeeds iff every name stands for a declared property
   * (ignoring case); the list then holds those properties' declared names in
   * request order, and otherwise the error names a name no property answers to.
   */
  lemma {:induction false} ResolveMeaning(props: seq<string>, names: seq<string>)
    ensures Resolve(props, names).Success? <==> forall i :: 0 <= i < |names| ==> GetProperty(props, names[i]).Some?
    ensures Resolve(props, names).Success? ==>
      |Resolve(props, names).value| == |names|
      && forall i :: 0 <= i < |names| ==> Resolve(props, names).value[i] == GetProperty(props, names[i]).value
    ensures Resolve(props, names).Failure? ==>
      Resolve(props, names).error.PropertyNotFound?
      && GetProperty(props, Resolve(props, names).error.propertyName) == None
    decreases |names|
  {
    if names != [] {
      var n := |names| - 1;
      var front := names[..n];
      ResolveMeaning(props, front);
      assert forall i :: 0 <= i < n ==> front[i] == names[i];
    }
  }

  lemma KeysAppend<V>(r: Record<V>, key: string, value: V)
    ensures Keys(r + [(key, value)]) == Keys(r) + [key]
  {
  }

  /**
   * `Add` throws exactly on a key the record already has; otherwise the key
   * goes last, so a record whose keys were distinct keeps them distinct.
   */
  lemma AddOutcome<V>(r: Record<V>, key: string, value: V)
    ensures Add(r, key, value).Failure? <==> key in Keys(r)
    ensures Add(r, key, value).Failure? ==> Add(r, key, value).error == DuplicateKey(key)
    ensures Add(r, key, value).Success? ==> Keys(Add(r, key, value).value) == Keys(r) + [key]
    ensures Add(r, key, value).Success? && Distinct(Keys(r)) ==> Distinct(Keys(Add(r, key, value).value))
  {
    KeysAppend(r, key, value);
  }

  /**
   * A record is the object's value for each listed property, in list order,
   * when no property is listed twice; a repeated property makes the second
   * `Add` of its name throw.
   */
  lemma {:induction false} ProjectEntries<V>(o: Object<V>, ps: seq<string>)
    requires HasProperties(o, ps)
    ensures Distinct(ps) ==> Project(o, ps) == Success(Entries(o, ps))
    ensures !Distinct(ps) ==>
      Project(o, ps).Failure? && Project(o, ps).error.DuplicateKey?
      && multiset(ps)[Project(o, ps).error.key] >= 2
    decreases |ps|
  {
    if ps != [] {
      var front := ps[..|ps| - 1];
      var last := ps[|ps| - 1];
      assert ps == front + [last];
      assert HasProperties(o, front);
      ProjectEntries(o, front);
      assert Distinct(ps) <==> Distinct(front) && last !in front;
      if Distinct(front) {
        assert Keys(Entries(o, front)) == front;
        if last !in front {
          assert Entries(o, front) + [(last, o[last])] == Entries(o, ps);
        } else {
          assert multiset(front)[last] >= 1;
        }
      }
    }
  }

  /** Reference definition of ShapeData's output: one record per object, in source order. */
  function ShapedRecords<V>(objects: seq<Object<V>>, ps: seq<string>): seq<Record<V>>
    requires AllHave(objects, ps)
  {
    seq(|objects|, k requires 0 <= k < |objects| && HasProperties(objects[k], ps) => Entries(objects[k], ps))
  }

  /**
   * Projecting a collection succeeds on an empty collection, and on a
   * non-empty one exactly when no property is listed twice; the error is then
   * the first object's.
   */
  lemma {:induction false} ProjectAllRecords<V>(objects: seq<Object<V>>, ps: seq<string>)
    requires AllHave(objects, ps)
    ensures Distinct(ps) ==> ProjectAll(objects, ps) == Success(ShapedRecords(objects, ps))
    ensures !Distinct(ps) && objects != [] ==>
      Project(objects[0], ps).Failure? && ProjectAll(objects, ps) == Failure(Project(objects[0], ps).error)
    decreases |objects|
  {
    if objects != [] {
      var front := objects[..|objects| - 1];
      assert AllHave(front, ps);
      ProjectAllRecords(front, ps);
      if Distinct(ps) {
        ProjectEntries(objects[|objects| - 1], ps);
        assert ShapedRecords(front, ps) + [Entries(objects[|objects| - 1], ps)] == ShapedRecords(objects, ps);
      } else {
        ProjectEntries(objects[0], ps);
        assert objects[..1] == [objects[0]];
        assert AllHave(objects[..1], ps);
        assert objects[..1][..0] == [];
        ProjectAllPrefixFailure(objects, ps, 1);
      }
    }
  }

  /** Properties are distinct ignoring case, so in particular distinct. */
  lemma ValidTypeDistinct(props: seq<string>)
    requires ValidType(props)
    ensures Distinct(props)
  {
  }

  /** A name matching a declared property ignoring case finds exactly that property, so "id" gives back "Id". */
  lemma GetPropertyUnique(props: seq<string>, p: string, name: string)
    requires ValidType(props) && p in props && EqualsIgnoreCase(p, name)
    ensures GetProperty(props, name) == Some(p)
  {
    var r := GetProperty(props, name);
    var j :| 0 <= j < |props| && props[j] == p;
    var i :| 0 <= i < |props| && props[i] == r.value;
    assert Fold(props[i]) == Fold(props[j]);
  }

  lemma EntriesKeys<V>(o: Object<V>, ps: seq<string>)
    requires HasProperties(o, ps)
    ensures Keys(Entries(o, ps)) == ps
  {
  }

  /**
   * ShapeData on a collection: an unknown field throws before any object is
   * looked at; otherwise the call succeeds iff the collection is empty or no
   * property is requested twice, and then gives one record per object, in
   * order, each holding the object's value of every resolved property under
   * that property's declared name, in the resolved order.
   */
  lemma ShapeOutcome<V>(objects: seq<Object<V>>, props: seq<string>, fields: Option<string>)
    requires AllHave(objects, props)
    ensures ResolveFields(props, fields).Failure? ==>
      Shape(Some(objects), props, fields) == Failure(ResolveFields(props, fields).error)
    ensures ResolveFields(props, fields).Success? ==>
      (Shape(Some(objects), props, fields).Success? <==> objects == [] || Distinct(ResolveFields(props, fields).value))
    ensures Shape(Some(objects), props, fields).Success? ==>
      ResolveFields(props, fields).Success?
      && |Shape(Some(objects), props, fields).value| == |objects|
      && forall k :: 0 <= k < |objects| ==>
           HasProperties(objects[k], ResolveFields(props, fields).value)
           && Shape(Some(objects), props, fields).value[k] == Entries(objects[k], ResolveFields(props, fields).value)
           && Keys(Shape(Some(objects), props, fields).value[k]) == ResolveFields(props, fields).value
  {
    var rf := ResolveFields(props, fields);
    if rf.Success? {
      var ps := rf.value;
      assert AllHave(objects, ps);
      ProjectAllRecords(objects, ps);
      if Distinct(ps) {
        forall k | 0 <= k < |objects|
          ensures Keys(Entries(objects[k], ps)) == ps
        {
          EntriesKeys(objects[k], ps);
        }
      }
    }
  }

  /** Blank fields: every record holds all the type's properties, in declaration order. */
  lemma BlankFieldsShape<V>(objects: seq<Object<V>>, props: seq<string>, fields: Option<string>)
    requires ValidType(props) && AllHave(objects, props)
    requires IsNullOrWhiteSpace(fields)
    ensures Shape(Some(objects), props, fields) == Success(ShapedRecords(objects, props))
  {
    ValidTypeDistinct(props);
    ProjectAllRecords(objects, props);
  }

  /** A token that names no property, the empty token included, makes ShapeData throw, whatever the source holds. */
  lemma UnknownFieldFails<V>(objects: seq<Object<V>>, props: seq<string>, fields: string, i: nat)
    requires AllHave(objects, props)
    requires !AllWhiteSpace(fields)
    requires i < |FieldNames(fields)| && GetProperty(props, FieldNames(fields)[i]) == None
    ensures Shape(Some(objects), props, Some(fields)).Failure?
    ensures Shape(Some(objects), props, Some(fields)).error.PropertyNotFound?
  {
    ResolveMeaning(props, FieldNames(fields));
  }
}
