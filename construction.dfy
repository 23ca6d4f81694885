/**
 * How a message's field values are decided when it is constructed: binding
 * positional and keyword arguments, falling back to class-level defaults,
 * taking declared fields from a decoded payload, and copying column fields
 * from the wrapper when the payload is empty.
 */
module Construction {
  import opened Wrappers
  import opened PyValues
  import opened TypeRegistry
  import opened FieldOrder

  /** The `json_str_or_dict` argument: an already decoded dictionary, or a document to decode. */
  datatype Payload = DictPayload(data: map<string, Value>) | TextPayload(text: string)

  // ---------------------------------------------------------------------------
  // Positional and keyword arguments

  /** The values the positional loop stores: argument i under field i. */
  function Positional(fieldNames: seq<string>, args: seq<Value>): map<string, Value>
    requires |args| <= |fieldNames|
  {
    if |args| == 0 then map[]
    else Positional(fieldNames, args[..|args| - 1])[fieldNames[|args| - 1] := args[|args| - 1]]
  }

  /** The values after the keyword loop: each keyword stored over what was there. */
  function WithKeywords(values: map<string, Value>, kwargs: seq<(string, Value)>): map<string, Value> {
    if |kwargs| == 0 then values
    else WithKeywords(values, kwargs[..|kwargs| - 1])[kwargs[|kwargs| - 1].0 := kwargs[|kwargs| - 1].1]
  }

  /** The first keyword, in call order, that names no field. */
  function FirstUnknownKeyword(fieldNames: seq<string>, kwargs: seq<(string, Value)>): (r: Option<string>)
    ensures r.None? <==> forall k :: 0 <= k < |kwargs| ==> kwargs[k].0 in fieldNames
    ensures r.Some? ==> r.value !in fieldNames
                        && exists k :: 0 <= k < |kwargs| && kwargs[k].0 == r.value
                                       && forall j :: 0 <= j < k ==> kwargs[j].0 in fieldNames
  {
    if |kwargs| == 0 then None
    else
      var pre := kwargs[..|kwargs| - 1];
      var r := FirstUnknownKeyword(fieldNames, pre);
      assert forall j :: 0 <= j < |pre| ==> kwargs[j] == pre[j];
      if r.Some? then r
      else if kwargs[|kwargs| - 1].0 !in fieldNames then Some(kwargs[|kwargs| - 1].0)
      else None
  }

  /** The outcome of the argument-binding part of `ProductionMessage.__init__`. */
  function BindSpec(fieldNames: seq<string>, args: seq<Value>, kwargs: seq<(string, Value)>): Result<map<string, Value>, Error> {
    if |args| > |fieldNames| then Failure(TooManyPositional(|fieldNames|, |args|))
    else match FirstUnknownKeyword(fieldNames, kwargs)
      case Some(k) => Failure(UnexpectedKeyword(k))
      case None => Success(WithKeywords(Positional(fieldNames, args), kwargs))
  }

  /** The two binding loops: positionals by index, then keywords, raising on excess or unknown names. */
  method BindArguments(fieldNames: seq<string>, args: seq<Value>, kwargs: seq<(string, Value)>)
    returns (r: Result<map<string, Value>, Error>)
    ensures r == BindSpec(fieldNames, args, kwargs)
  {
    var values: map<string, Value> := map[];
    var idx := 0;
    while idx < |args|
      invariant idx <= |args| && idx <= |fieldNames|
      invariant values == Positional(fieldNames, args[..idx])
    {
      if idx >= |fieldNames| {
        return Failure(TooManyPositional(|fieldNames|, |args|));
      }
      assert args[..idx + 1][..idx] == args[..idx];
      values := values[fieldNames[idx] := args[idx]];
      idx := idx + 1;
    }
    assert args[..idx] == args;
    var k := 0;
    while k < |kwargs|
      invariant k <= |kwargs|
      invariant values == WithKeywords(Positional(fieldNames, args), kwargs[..k])
      invariant FirstUnknownKeyword(fieldNames, kwargs[..k]).None?
    {
      var (key, value) := kwargs[k];
      assert kwargs[..k + 1][..k] == kwargs[..k];
      if key !in fieldNames {
        PrefixUnknownKeyword(fieldNames, kwargs, k + 1);
        return Failure(UnexpectedKeyword(key));
      }
      values := values[key := value];
      k := k + 1;
    }
    assert kwargs[..k] == kwargs;
    r := Success(values);
  }

  /** Once a prefix of the keywords holds an unknown name, the whole list reports that name first. */
  lemma {:induction false} PrefixUnknownKeyword(fieldNames: seq<string>, kwargs: seq<(string, Value)>, n: nat)
    requires n <= |kwargs|
    requires FirstUnknownKeyword(fieldNames, kwargs[..n]).Some?
    ensures FirstUnknownKeyword(fieldNames, kwargs) == FirstUnknownKeyword(fieldNames, kwargs[..n])
    decreases |kwargs| - n
  {
    if n < |kwargs| {
      assert kwargs[..n + 1][..n] == kwargs[..n];
      PrefixUnknownKeyword(fieldNames, kwargs, n + 1);
    } else {
      assert kwargs[..n] == kwargs;
    }
  }

  lemma {:induction false} PositionalAt(fieldNames: seq<string>, args: seq<Value>, i: nat)
    requires |args| <= |fieldNames| && NoDuplicates(fieldNames) && i < |args|
    ensures fieldNames[i] in Positional(fieldNames, args)
    ensures Positional(fieldNames, args)[fieldNames[i]] == args[i]
  {
    if i < |args| - 1 {
      assert args[..|args| - 1][i] == args[i];
      PositionalAt(fieldNames, args[..|args| - 1], i);
    }
  }

  lemma {:induction false} PositionalKeys(fieldNames: seq<string>, args: seq<Value>)
    requires |args| <= |fieldNames|
    ensures Positional(fieldNames, args).Keys == set i | 0 <= i < |args| :: fieldNames[i]
  {
    if |args| > 0 {
      PositionalKeys(fieldNames, args[..|args| - 1]);
    }
  }

  lemma {:induction false} WithKeywordsKeys(values: map<string, Value>, kwargs: seq<(string, Value)>, key: string)
    ensures key in WithKeywords(values, kwargs) <==> key in values || exists k :: 0 <= k < |kwargs| && kwargs[k].0 == key
  {
    if |kwargs| > 0 {
      var pre := kwargs[..|kwargs| - 1];
      WithKeywordsKeys(values, pre, key);
      assert forall k :: 0 <= k < |pre| ==> pre[k] == kwargs[k];
    }
  }

  lemma {:induction false} WithKeywordsUntouched(values: map<string, Value>, kwargs: seq<(string, Value)>, key: string)
    requires forall k :: 0 <= k < |kwargs| ==> kwargs[k].0 != key
    requires key in values
    ensures key in WithKeywords(values, kwargs) && WithKeywords(values, kwargs)[key] == values[key]
  {
    if |kwargs| > 0 {
      var pre := kwargs[..|kwargs| - 1];
      assert forall k :: 0 <= k < |pre| ==> pre[k] == kwargs[k];
      WithKeywordsUntouched(values, pre, key);
    }
  }

  lemma {:induction false} WithKeywordsLast(values: map<string, Value>, kwargs: seq<(string, Value)>, key: string, k: nat)
    requires k < |kwargs| && kwargs[k].0 == key
    requires forall j :: k < j < |kwargs| ==> kwargs[j].0 != key
    ensures key in WithKeywords(values, kwargs) && WithKeywords(values, kwargs)[key] == kwargs[k].1
  {
    var pre := kwargs[..|kwargs| - 1];
    if k < |pre| {
      assert kwargs[|kwargs| - 1].0 != key;
      assert pre[k] == kwargs[k];
      assert forall j :: k < j < |pre| ==> pre[j] == kwargs[j];
      WithKeywordsLast(values, pre, key, k);
    }
  }

  lemma WithKeywordsAt(values: map<string, Value>, kwargs: seq<(string, Value)>, key: string)
    ensures key in WithKeywords(values, kwargs) <==> key in values || exists k :: 0 <= k < |kwargs| && kwargs[k].0 == key
    ensures (forall k :: 0 <= k < |kwargs| ==> kwargs[k].0 != key) && key in values ==>
              WithKeywords(values, kwargs)[key] == values[key]
    ensures forall k :: (0 <= k < |kwargs| && kwargs[k].0 == key
                         && forall j :: k < j < |kwargs| ==> kwargs[j].0 != key) ==>
              WithKeywords(values, kwargs)[key] == kwargs[k].1
  {
    WithKeywordsKeys(values, kwargs, key);
    if (forall k :: 0 <= k < |kwargs| ==> kwargs[k].0 != key) && key in values {
      WithKeywordsUntouched(values, kwargs, key);
    }
    forall k | 0 <= k < |kwargs| && kwargs[k].0 == key && forall j :: k < j < |kwargs| ==> kwargs[j].0 != key
      ensures WithKeywords(values, kwargs)[key] == kwargs[k].1
    {
      WithKeywordsLast(values, kwargs, key, k);
    }
  }

  /** Positional argument i is bound to field i unless a keyword names that field. */
  lemma PositionalBinding(fieldNames: seq<string>, args: seq<Value>, kwargs: seq<(string, Value)>, i: nat)
    requires NoDuplicates(fieldNames) && i < |args|
    requires BindSpec(fieldNames, args, kwargs).Success?
    requires forall k :: 0 <= k < |kwargs| ==> kwargs[k].0 != fieldNames[i]
    ensures fieldNames[i] in BindSpec(fieldNames, args, kwargs).value
    ensures BindSpec(fieldNames, args, kwargs).value[fieldNames[i]] == args[i]
  {
    PositionalAt(fieldNames, args, i);
    WithKeywordsAt(Positional(fieldNames, args), kwargs, fieldNames[i]);
  }

  /** A keyword always wins, also over a positional given for the same field. */
  lemma KeywordOverrides(fieldNames: seq<string>, args: seq<Value>, kwargs: seq<(string, Value)>, k: nat)
    requires k < |kwargs|
    requires forall j :: k < j < |kwargs| ==> kwargs[j].0 != kwargs[k].0
    requires BindSpec(fieldNames, args, kwargs).Success?
    ensures kwargs[k].0 in BindSpec(fieldNames, args, kwargs).value
    ensures BindSpec(fieldNames, args, kwargs).value[kwargs[k].0] == kwargs[k].1
  {
    WithKeywordsAt(Positional(fieldNames, args), kwargs, kwargs[k].0);
  }

  /** The bound names are the first |args| fields and the keyword names, nothing else. */
  lemma BoundNames(fieldNames: seq<string>, args: seq<Value>, kwargs: seq<(string, Value)>)
    requires BindSpec(fieldNames, args, kwargs).Success?
    ensures forall n :: n in BindSpec(fieldNames, args, kwargs).value <==>
              (exists i :: 0 <= i < |args| && fieldNames[i] == n) || (exists k :: 0 <= k < |kwargs| && kwargs[k].0 == n)
    ensures forall n :: n in BindSpec(fieldNames, args, kwargs).value ==> n in fieldNames
  {
    PositionalKeys(fieldNames, args);
    forall n ensures n in BindSpec(fieldNames, args, kwargs).value <==>
              (exists i :: 0 <= i < |args| && fieldNames[i] == n) || (exists k :: 0 <= k < |kwargs| && kwargs[k].0 == n)
    {
      WithKeywordsAt(Positional(fieldNames, args), kwargs, n);
    }
  }

  // ---------------------------------------------------------------------------
  // Defaults

  /**
   * The default of a field nobody supplied: a `Column(...)` attribute's own
   * default, else the plain class attribute, else `None`.
   */
  function DefaultOf(t: MessageType, name: string): (v: Value)
    ensures name !in t.classAttrs ==> v == NoneV
    ensures name in t.classAttrs && t.classAttrs[name].ColumnObj? ==> v == t.classAttrs[name].default
    ensures name in t.classAttrs && !t.classAttrs[name].ColumnObj? ==> v == t.classAttrs[name]
  {
    if name !in t.classAttrs then NoneV
    else match t.classAttrs[name]
      case ColumnObj(d) => d
      case v => v
  }

  /** The field values of a freshly built message. */
  function FreshFields(t: MessageType, values: map<string, Value>): map<string, Value> {
    map n | n in t.fieldNames :: if n in values then values[n] else DefaultOf(t, n)
  }

  /** The default-resolution loop: every declared field set once, from the supplied values or its default. */
  method ResolveFields(t: MessageType, values: map<string, Value>) returns (fields: map<string, Value>)
    ensures fields.Keys == set n | n in t.fieldNames
    ensures forall n :: n in fields && n in values ==> fields[n] == values[n]
    ensures forall n :: n in fields && n !in values ==> fields[n] == DefaultOf(t, n)
    ensures fields == FreshFields(t, values)
  {
    fields := map[];
    var i := 0;
    while i < |t.fieldNames|
      invariant i <= |t.fieldNames|
      invariant fields == map n | n in t.fieldNames[..i] :: if n in values then values[n] else DefaultOf(t, n)
    {
      var name := t.fieldNames[i];
      var val;
      if name in values {
        val := values[name];
      } else {
        val := DefaultOf(t, name);
      }
      assert t.fieldNames[..i + 1] == t.fieldNames[..i] + [name];
      fields := fields[name := val];
      i := i + 1;
    }
    assert t.fieldNames[..i] == t.fieldNames;
  }

  // ---------------------------------------------------------------------------
  // Rehydration

  /** The fields taken from a decoded payload: the declared ones it holds, nothing else. */
  function Rehydrated(t: MessageType, data: map<string, Value>): map<string, Value> {
    map n | n in t.fieldNames && n in data :: data[n]
  }

  /** The rehydration loops: copy each declared field present in the payload. */
  method ApplyDecoded(t: MessageType, data: map<string, Value>) returns (fields: map<string, Value>)
    ensures forall n :: n in fields <==> n in t.fieldNames && n in data
    ensures forall n :: n in fields ==> fields[n] == data[n]
    ensures fields == Rehydrated(t, data)
  {
    fields := map[];
    var i := 0;
    while i < |t.fieldNames|
      invariant i <= |t.fieldNames|
      invariant forall n :: n in fields <==> n in t.fieldNames[..i] && n in data
      invariant forall n :: n in fields ==> fields[n] == data[n]
    {
      var name := t.fieldNames[i];
      assert t.fieldNames[..i + 1] == t.fieldNames[..i] + [name];
      if name in data {
        fields := fields[name := data[name]];
      }
      i := i + 1;
    }
    assert t.fieldNames[..i] == t.fieldNames;
    assert fields.Keys == Rehydrated(t, data).Keys;
  }

  /** The first column the wrapper has no property for. */
  function FirstMissing(columns: seq<string>, props: map<string, Value>): (r: Option<string>)
    ensures r.None? <==> forall n :: n in columns ==> n in props
    ensures r.Some? ==> r.value in columns && r.value !in props
  {
    if |columns| == 0 then None
    else if columns[0] !in props then Some(columns[0])
    else FirstMissing(columns[1..], props)
  }

  lemma {:induction false} FirstMissingAt(columns: seq<string>, props: map<string, Value>, i: nat)
    requires i < |columns| && columns[i] !in props
    requires forall j :: 0 <= j < i ==> columns[j] in props
    ensures FirstMissing(columns, props) == Some(columns[i])
  {
    if i > 0 {
      FirstMissingAt(columns[1..], props, i - 1);
    }
  }

  /** The column values the wrapper holds other than the empty string. */
  function WrapperColumns(columns: seq<string>, props: map<string, Value>): map<string, Value> {
    map n | n in columns && n in props && props[n] != Str("") :: props[n]
  }

  /** One more column: its wrapper value is set over the others unless it is the empty string. */
  lemma WrapperColumnsSnoc(start: map<string, Value>, columns: seq<string>, name: string, props: map<string, Value>)
    requires name in props
    ensures start + WrapperColumns(columns + [name], props)
         == if props[name] != Str("") then (start + WrapperColumns(columns, props))[name := props[name]]
            else start + WrapperColumns(columns, props)
  {
    var before := WrapperColumns(columns, props);
    var after := WrapperColumns(columns + [name], props);
    if props[name] != Str("") {
      assert after == before[name := props[name]];
    } else {
      assert after == before;
    }
  }

  /**
   * The empty-payload loop: for each column field, read the wrapper's property
   * of that name and set it over `start` unless it is the empty string.
   */
  method ColumnFallback(columns: seq<string>, props: map<string, Value>, start: map<string, Value>)
    returns (r: Result<map<string, Value>, Error>)
    ensures FirstMissing(columns, props).Some? ==> r == Failure(MissingAttribute(FirstMissing(columns, props).value))
    ensures FirstMissing(columns, props).None? ==> r == Success(start + WrapperColumns(columns, props))
  {
    var fields := start;
    var i := 0;
    while i < |columns|
      invariant i <= |columns|
      invariant forall j :: 0 <= j < i ==> columns[j] in props
      invariant fields == start + WrapperColumns(columns[..i], props)
    {
      var name := columns[i];
      assert columns[..i + 1] == columns[..i] + [name];
      if name !in props {
        FirstMissingAt(columns, props, i);
        return Failure(MissingAttribute(name));
      }
      WrapperColumnsSnoc(start, columns[..i], name, props);
      var val := props[name];
      if val != Str("") {
        fields := fields[name := val];
      }
      i := i + 1;
    }
    assert columns[..i] == columns;
    r := Success(fields);
  }

  // ---------------------------------------------------------------------------
  // The whole of ProductionMessage.__init__, as a specification

  /**
   * The field values `ProductionMessage.__init__` leaves on the instance, or the
   * exception it raises. `hasWrapper` says whether `iris_message_object` was
   * given (a wrapper object is always truthy); `props` are that wrapper's
   * properties; `loads` is the decoder named by `serializer`; `hostClassFound`
   * says whether the host generated a class for `package.ClassName`, which a
   * fresh message needs for its new wrapper.
   */
  function InitSpec(t: MessageType, args: seq<Value>, kwargs: seq<(string, Value)>, hasWrapper: bool,
                    props: map<string, Value>, payload: Option<Payload>, serializer: string,
                    loads: string -> Option<map<string, Value>>, hostClassFound: bool): Result<map<string, Value>, Error>
  {
    if payload.Some? != hasWrapper then Failure(WrapperPayloadMismatch)
    else if (|args| > 0 || |kwargs| > 0) && hasWrapper then Failure(MixedConstruction)
    else if hasWrapper then
      if payload.value == TextPayload("") then
        match FirstMissing(t.columnNames, props)
        case Some(n) => Failure(MissingAttribute(n))
        case None => Success(WrapperColumns(t.columnNames, props))
      else if serializer == "pickle" then Success(map[])
      else match payload.value
        case DictPayload(d) => Success(Rehydrated(t, d))
        case TextPayload(s) =>
          match loads(s)
          case None => Failure(DecodeFailure)
          case Some(d) => Success(Rehydrated(t, d))
    else if !hostClassFound then Failure(NoHostClass(t.fullName))
    else match BindSpec(t.fieldNames, args, kwargs)
      case Failure(e) => Failure(e)
      case Success(values) => Success(FreshFields(t, values))
  }

  /**
   * Only three input shapes construct: fresh with arguments, fresh without,
   * or wrapper plus payload with no arguments. A wrapper without payload, a
   * payload without wrapper, or arguments beside a wrapper raise TypeError.
   */
  lemma ConstructionShapes(t: MessageType, args: seq<Value>, kwargs: seq<(string, Value)>, hasWrapper: bool,
                           props: map<string, Value>, payload: Option<Payload>, serializer: string,
                           loads: string -> Option<map<string, Value>>, found: bool)
    ensures var r := InitSpec(t, args, kwargs, hasWrapper, props, payload, serializer, loads, found);
            && (r == Failure(WrapperPayloadMismatch) <==> payload.Some? != hasWrapper)
            && (r == Failure(MixedConstruction) <==> payload.Some? == hasWrapper && hasWrapper && (|args| > 0 || |kwargs| > 0))
            && (r.Success? ==> (!hasWrapper && payload.None?) || (hasWrapper && payload.Some? && |args| == 0 && |kwargs| == 0))
  {
    var r := InitSpec(t, args, kwargs, hasWrapper, props, payload, serializer, loads, found);
    if payload.Some? == hasWrapper && !hasWrapper {
      match BindSpec(t.fieldNames, args, kwargs)
      case Failure(e) => {
        assert e != WrapperPayloadMismatch && e != MixedConstruction;
      }
      case Success(_) =>
    }
  }

  /** A fresh message has every declared field, and nothing else, set once by the default chain. */
  lemma FreshConstruction(t: MessageType, args: seq<Value>, kwargs: seq<(string, Value)>, props: map<string, Value>,
                          serializer: string, loads: string -> Option<map<string, Value>>, found: bool)
    requires InitSpec(t, args, kwargs, false, props, None, serializer, loads, found).Success?
    ensures var fields := InitSpec(t, args, kwargs, false, props, None, serializer, loads, found).value;
            && fields.Keys == set n | n in t.fieldNames
            && forall n :: n in fields ==>
                 fields[n] == (if n in BindSpec(t.fieldNames, args, kwargs).value
                               then BindSpec(t.fieldNames, args, kwargs).value[n] else DefaultOf(t, n))
  {
  }

  /**
   * Fresh construction fails exactly when the host has no class for the
   * message, or too many positionals or an unknown keyword are given.
   */
  lemma FreshConstructionErrors(t: MessageType, args: seq<Value>, kwargs: seq<(string, Value)>, props: map<string, Value>,
                                serializer: string, loads: string -> Option<map<string, Value>>, found: bool)
    ensures var r := InitSpec(t, args, kwargs, false, props, None, serializer, loads, found);
            && (!found ==> r == Failure(NoHostClass(t.fullName)))
            && (found && |args| > |t.fieldNames| ==> r == Failure(TooManyPositional(|t.fieldNames|, |args|)))
            && (found && |args| <= |t.fieldNames| && (exists k :: 0 <= k < |kwargs| && kwargs[k].0 !in t.fieldNames) ==>
                  r.Failure? && r.error.UnexpectedKeyword? && r.error.key !in t.fieldNames)
            && (found && |args| <= |t.fieldNames| && (forall k :: 0 <= k < |kwargs| ==> kwargs[k].0 in t.fieldNames) ==> r.Success?)
  {
  }

  /**
   * Rehydrating from a non-empty payload sets exactly the declared fields the
   * payload holds, to the payload's values; other keys are ignored and absent
   * fields stay unset.
   */
  lemma RehydrationTakesDeclaredFields(t: MessageType, props: map<string, Value>, payload: Payload,
                                       loads: string -> Option<map<string, Value>>, found: bool,
                                       data: map<string, Value>)
    requires payload != TextPayload("")
    requires payload.DictPayload? ==> data == payload.data
    requires payload.TextPayload? ==> loads(payload.text) == Some(data)
    ensures var r := InitSpec(t, [], [], true, props, Some(payload), "json", loads, found);
            && r.Success?
            && (forall n :: n in r.value <==> n in t.fieldNames && n in data)
            && (forall n :: n in r.value ==> r.value[n] == data[n])
  {
  }

  /**
   * Rehydrating from the empty document sets only column fields, each to the
   * wrapper's value, and only where that value is not the empty string.
   */
  lemma EmptyPayloadFallback(t: MessageType, props: map<string, Value>, loads: string -> Option<map<string, Value>>, found: bool)
    requires forall n :: n in t.columnNames ==> n in props
    ensures var r := InitSpec(t, [], [], true, props, Some(TextPayload("")), "json", loads, found);
            && r.Success?
            && (forall n :: n in r.value <==> n in t.columnNames && props[n] != Str(""))
            && (forall n :: n in r.value ==> r.value[n] == props[n])
  {
  }
}
