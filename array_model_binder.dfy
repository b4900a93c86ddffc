/**
 * ArrayModelBinder (CourseLibrary.API/Helpers/ArrayModelBinder.cs): binds a
 * comma-separated route value such as "id1,id2" to an array of the model's
 * element type. The binding context is a class whose Model and Result the
 * binder sets; the value provider's text and the element type's converter
 * are fixed when the context is made. A converter that throws on a token is
 * a conversion returning `None`.
 */
module ArrayModelBinder {
  import opened Wrappers
  import opened Strings
  import opened Sequences

  /** `ModelBindingResult`: not yet set, Failed, or Success with a model that may be null. */
  datatype ModelBindingResult<T> = NotSet | Failed | Success(model: Option<array<T>>)

  /**
   * The exceptions the binder lets escape: `GenericTypeArguments[0]` on a
   * model type with no generic argument (an array type such as `Guid[]`, or a
   * non-generic collection), and a converter that cannot read a token.
   */
  datatype BindFault = IndexOutOfRange | ConverterThrew

  /** `value.Split(",", StringSplitOptions.RemoveEmptyEntries)` drops the pieces that are exactly empty. */
  function RemoveEmptyEntries(pieces: seq<string>): (r: seq<string>)
    ensures |r| <= |pieces|
    ensures forall i :: 0 <= i < |r| ==> r[i] != ""
    decreases |pieces|
  {
    if pieces == [] then []
    else (if pieces[0] == "" then [] else [pieces[0]]) + RemoveEmptyEntries(pieces[1..])
  }

  lemma {:induction false} RemoveEmptyEntriesAppend(a: seq<string>, b: seq<string>)
    ensures RemoveEmptyEntries(a + b) == RemoveEmptyEntries(a) + RemoveEmptyEntries(b)
    decreases |a|
  {
    if a != [] {
      assert (a + b)[1..] == a[1..] + b;
      RemoveEmptyEntriesAppend(a[1..], b);
    } else {
      assert a + b == b;
    }
  }

  /** Exactly the non-empty pieces are kept. */
  lemma {:induction false} RemoveEmptyEntriesMembers(pieces: seq<string>, x: string)
    ensures x in RemoveEmptyEntries(pieces) <==> x in pieces && x != ""
    decreases |pieces|
  {
    if pieces != [] {
      RemoveEmptyEntriesMembers(pieces[1..], x);
      assert x in pieces <==> x == pieces[0] || x in pieces[1..];
    }
  }

  /** Pieces that are all non-empty are all kept, in order. */
  lemma {:induction false} RemoveEmptyEntriesKeeps(pieces: seq<string>)
    requires forall i :: 0 <= i < |pieces| ==> pieces[i] != ""
    ensures RemoveEmptyEntries(pieces) == pieces
    decreases |pieces|
  {
    if pieces != [] {
      RemoveEmptyEntriesKeeps(pieces[1..]);
      assert pieces == [pieces[0]] + pieces[1..];
    }
  }

  /** The texts handed to the converter: the non-empty comma pieces, each trimmed afterwards. */
  function Tokens(value: string): (tokens: seq<string>)
    ensures |tokens| <= |Split(value, ',')|
    ensures forall i :: 0 <= i < |tokens| ==> IsTrimmed(tokens[i])
  {
    Map(Trim, Kept(value))
  }

  /** The pieces that survive `RemoveEmptyEntries`, before they are trimmed. */
  function Kept(value: string): seq<string> {
    RemoveEmptyEntries(Split(value, ','))
  }

  /**
   * `.Select(x => converter.ConvertFromString(x.Trim())).ToArray()`: every
   * token converted in order; the conversion fails iff some token does not
   * convert, and otherwise holds one converted value per token.
   */
  function ConvertAll<T>(convert: string -> Option<T>, tokens: seq<string>): (r: Option<seq<T>>)
    ensures r.Some? <==> forall i :: 0 <= i < |tokens| ==> convert(tokens[i]).Some?
    ensures r.Some? ==> |r.value| == |tokens| && forall i :: 0 <= i < |tokens| ==> convert(tokens[i]) == Some(r.value[i])
    decreases |tokens|
  {
    if tokens == [] then Some([])
    else
      var front := ConvertAll(convert, tokens[..|tokens| - 1]);
      var last := convert(tokens[|tokens| - 1]);
      if front.None? || last.None? then
        assert forall i :: 0 <= i < |tokens| - 1 ==> tokens[..|tokens| - 1][i] == tokens[i];
        None
      else Some(front.value + [last.value])
  }

  /** The binding context of one action parameter. */
  class ModelBindingContext<T> {
    /** `ModelMetadata.IsEnumerableType`. */
    const isEnumerableType: bool
    /** Whether `ModelType.GetTypeInfo().GenericTypeArguments` is non-empty; its first entry is the element type. */
    const hasTypeArgument: bool
    const modelName: string
    /** `ValueProvider.GetValue(ModelName).ToString()`: the request's text for the parameter. */
    const rawValue: string
    /** `TypeDescriptor.GetConverter(elementType).ConvertFromString`; `None` when it throws. */
    const convert: string -> Option<T>
    /** `Model`: null until a binder assigns it. */
    var model: Option<array<T>>
    var result: ModelBindingResult<T>

    constructor (isEnumerableType: bool, hasTypeArgument: bool, modelName: string, rawValue: string, convert: string -> Option<T>)
      ensures this.isEnumerableType == isEnumerableType && this.hasTypeArgument == hasTypeArgument
      ensures this.modelName == modelName && this.rawValue == rawValue && this.convert == convert
      ensures model == None && result == NotSet
    {
      this.isEnumerableType := isEnumerableType;
      this.hasTypeArgument := hasTypeArgument;
      this.modelName := modelName;
      this.rawValue := rawValue;
      this.convert := convert;
      model := None;
      result := NotSet;
    }

    /**
     * BindModelAsync. A model type that is not enumerable fails the binding;
     * a null or white-space value succeeds with a null model; otherwise a
     * model type without a generic argument throws, and the converted tokens
     * become a new array that is both the Model and the Result's model.
     * `thrown` reports the exception that escapes, which leaves Model and
     * Result as they were.
     */
    method BindModel() returns (thrown: Option<BindFault>)
      modifies this
      ensures !isEnumerableType ==> thrown == None && result == Failed && model == old(model)
      ensures isEnumerableType && AllWhiteSpace(rawValue) ==>
        thrown == None && result == ModelBindingResult.Success(None) && model == old(model)
      ensures isEnumerableType && !AllWhiteSpace(rawValue) && !hasTypeArgument ==>
        thrown == Some(IndexOutOfRange) && model == old(model) && result == old(result)
      ensures isEnumerableType && !AllWhiteSpace(rawValue) && hasTypeArgument ==>
        var values := ConvertAll(convert, Tokens(rawValue));
        (thrown.Some? <==> values.None?)
        && (thrown.Some? ==> thrown == Some(ConverterThrew) && model == old(model) && result == old(result))
        && (thrown.None? ==>
              model.Some? && fresh(model.value) && model.value[..] == values.value
              && result == ModelBindingResult.Success(model))
    {
      if !isEnumerableType {
        result := Failed;
        return None;
      }
      if IsNullOrWhiteSpace(Some(rawValue)) {
        result := ModelBindingResult.Success(None);
        return None;
      }
      if !hasTypeArgument {
        return Some(IndexOutOfRange);
      }
      var values := ConvertAll(convert, Tokens(rawValue));
      if values.None? {
        return Some(ConverterThrew);
      }
      var vs := values.value;
      var typedValues := new T[|vs|](i requires 0 <= i < |vs| => vs[i]);
      model := Some(typedValues);
      result := ModelBindingResult.Success(model);
      thrown := None;
    }
  }

  /** A non-empty comma-free piece between two commas survives as one piece. */
  lemma KeptAround(a: string, w: string, b: string)
    requires w != "" && ',' !in w
    ensures Kept(a + "," + w + "," + b) == Kept(a) + [w] + Kept(b)
  {
    assert a + "," + w + "," + b == a + [','] + (w + [','] + b);
    SplitAppend(a, w + [','] + b, ',');
    SplitAppend(w, b, ',');
    SplitNoSeparator(w, ',');
    var sa, sb := Split(a, ','), Split(b, ',');
    assert sa + ([w] + sb) == sa + [w] + sb;
    RemoveEmptyEntriesAppend(sa + [w], sb);
    RemoveEmptyEntriesAppend(sa, [w]);
    assert RemoveEmptyEntries([w]) == [w];
  }

  /** Two adjacent commas leave only the pieces on either side. */
  lemma KeptAdjacentCommas(a: string, b: string)
    ensures Kept(a + ",," + b) == Kept(a) + Kept(b)
  {
    assert a + ",," + b == a + [','] + ("" + [','] + b);
    SplitAppend(a, "" + [','] + b, ',');
    SplitAppend("", b, ',');
    var sa, sb := Split(a, ','), Split(b, ',');
    assert Split("", ',') == [""];
    assert sa + ([""] + sb) == sa + [""] + sb;
    RemoveEmptyEntriesAppend(sa + [""], sb);
    RemoveEmptyEntriesAppend(sa, [""]);
    assert RemoveEmptyEntries([""]) == [];
  }

  /**
   * A white-space piece is not dropped: RemoveEmptyEntries runs before Trim,
   * so it reaches the converter as the empty text.
   */
  lemma WhiteSpacePieceConverted(a: string, w: string, b: string)
    requires w != "" && AllWhiteSpace(w)
    ensures Tokens(a + "," + w + "," + b) == Tokens(a) + [""] + Tokens(b)
  {
    assert ',' !in w by {
      forall i | 0 <= i < |w|
        ensures w[i] != ','
      {
        AllWhiteSpaceAt(w, i);
      }
    }
    KeptAround(a, w, b);
    MapAppend3(Trim, Kept(a), w, Kept(b));
  }

  /** An empty piece, as between two adjacent commas, contributes no token. */
  lemma EmptyPieceDropped(a: string, b: string)
    ensures Tokens(a + ",," + b) == Tokens(a) + Tokens(b)
  {
    KeptAdjacentCommas(a, b);
    MapAppend(Trim, Kept(a), Kept(b));
  }

  /** Non-empty, comma-free texts joined with "," split back into themselves. */
  lemma JoinedKept(texts: seq<string>)
    requires |texts| >= 1
    requires forall i :: 0 <= i < |texts| ==> texts[i] != "" && ',' !in texts[i]
    ensures Kept(Join(",", texts)) == texts
  {
    SplitJoin(texts, ',');
    RemoveEmptyEntriesKeeps(texts);
  }

  /** Trimming texts that are already trimmed changes nothing. */
  lemma TrimAllTrimmed(texts: seq<string>)
    requires forall i :: 0 <= i < |texts| ==> IsTrimmed(texts[i])
    ensures Map(Trim, texts) == texts
  {
    forall i | 0 <= i < |texts|
      ensures Trim(texts[i]) == texts[i]
    {
      TrimmedUnchanged(texts[i]);
    }
    MapFixed(Trim, texts);
  }

  /** Non-empty, comma-free, trimmed texts joined with "," tokenize back to themselves. */
  lemma JoinedTokens(texts: seq<string>)
    requires |texts| >= 1
    requires forall i :: 0 <= i < |texts| ==> texts[i] != "" && ',' !in texts[i] && IsTrimmed(texts[i])
    ensures Tokens(Join(",", texts)) == texts
  {
    JoinedKept(texts);
    TrimAllTrimmed(texts);
  }

  /** A non-empty join of non-empty texts is not white space only. */
  lemma JoinedNotBlank(texts: seq<string>)
    requires |texts| >= 1 && texts[0] != "" && IsTrimmed(texts[0])
    ensures !AllWhiteSpace(Join(",", texts))
  {
    var j := Join(",", texts);
    assert j[0] == texts[0][0];
  }

  /**
   * The round trip the collection route depends on: ids written with
   * `string.Join(",", ids)` bind back to the same ids, in order, when each
   * id's text is non-empty, comma-free and trimmed and the converter reads
   * back what the text was written from.
   */
  lemma BindRoundTrip<T>(ids: seq<T>, show: T -> string, convert: string -> Option<T>)
    requires |ids| >= 1
    requires forall x :: show(x) != "" && ',' !in show(x) && IsTrimmed(show(x))
    requires forall x :: convert(show(x)) == Some(x)
    ensures !AllWhiteSpace(Join(",", Map(show, ids)))
    ensures ConvertAll(convert, Tokens(Join(",", Map(show, ids)))) == Some(ids)
  {
    var texts := Map(show, ids);
    JoinedTokens(texts);
    JoinedNotBlank(texts);
    var r := ConvertAll(convert, texts);
    assert r.Some?;
    assert r.value == ids by {
      forall i | 0 <= i < |ids|
        ensures r.value[i] == ids[i]
      {
        assert convert(texts[i]) == Some(ids[i]);
      }
    }
  }
}
