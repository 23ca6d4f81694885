/**
 * Message objects and their IRIS wrappers: construction, the writer loops
 * that serialize a message into its wrapper's stream in chunks, the copy of
 * matching fields onto the wrapper's properties, and the reader side that
 * rebuilds a message from a wrapper.
 */
module Messages {
  import opened Wrappers
  import opened PyValues
  import opened TypeRegistry
  import opened Chunks
  import opened Construction

  /** The host's longest string: a chunk longer than this raises <MAXSTRING> in IRIS. */
  const MaxString: nat := 3641144

  lemma ChunkSizeFitsHostStrings()
    ensures 0 < ChunkSize <= MaxString
  {
  }

  /**
   * A class the host generated for a message class: module `iris.<package>`,
   * its name, its properties, and the property values a new object of it
   * starts with (whatever the host's class definition gives them).
   */
  datatype IrisClass = IrisClass(moduleName: string, className: string, propertyNames: seq<string>,
                                 initialProps: map<string, Value>)

  /** What `pickle.dumps(self)` records while the wrapper slot holds the empty string. */
  datatype PickleState = PickleState(
    msgType: MessageType,
    fields: map<string, Value>,
    serializer: string,
    serialStream: string,
    wrapperSlot: string)

  /** The encoders and decoders the message layer calls; their round trips are hypotheses of the lemmas. */
  datatype Codec = Codec(
    dumpsJson: map<string, Value> -> string,
    loadsJson: string -> Option<map<string, Value>>,
    dumpsPickle: PickleState -> string,
    loadsPickle: string -> Option<PickleState>)

  /**
   * A host stream object (`%Stream.GlobalCharacter` / `%Stream.GlobalBinary`).
   * `pieces` records the arguments of the `Write` calls that built it.
   */
  class Stream {
    var content: string
    ghost var pieces: seq<string>

    /** `_New()`: an empty stream. */
    constructor ()
      ensures content == [] && pieces == []
    {
      content := [];
      pieces := [];
    }

    method Write(chunk: string)
      requires |chunk| <= MaxString
      modifies this
      ensures content == old(content) + chunk
      ensures pieces == old(pieces) + [chunk]
    {
      content := content + chunk;
      pieces := pieces + [chunk];
    }
  }

  /**
   * An IRIS message object on the Python side. Request `i` of `chunksFromIRIS`
   * is answered with the i-th 3 MiB segment of its `SerializedStream`.
   */
  class Wrapper {
    const irisClass: IrisClass
    var props: map<string, Value>
    var stream: Stream                  // `SerializedStream`

    /** `_New()`: a new host object with its class's initial property values and an empty stream. */
    constructor New(c: IrisClass)
      ensures irisClass == c && fresh(stream) && stream.content == []
      ensures props == c.initialProps
    {
      irisClass := c;
      props := c.initialProps;
      stream := new Stream();
    }

    /** The host's answers to `chunksFromIRIS(0, ChunkSize)`, `chunksFromIRIS(1, ChunkSize)`, ... */
    function Replies(): seq<string>
      reads this, stream
    {
      Segments(stream.content, ChunkSize)
    }
  }

  /** The properties after copying every property the class declares that the instance dictionary holds. */
  function CopiedProps(props: map<string, Value>, names: seq<string>, dict: map<string, Value>): map<string, Value> {
    props + map p | p in names && p in dict :: dict[p]
  }

  lemma CopiedPropsSnoc(props: map<string, Value>, names: seq<string>, p: string, dict: map<string, Value>)
    ensures CopiedProps(props, names + [p], dict)
         == if p in dict then CopiedProps(props, names, dict)[p := dict[p]] else CopiedProps(props, names, dict)
  {
    var a := CopiedProps(props, names + [p], dict);
    var b := if p in dict then CopiedProps(props, names, dict)[p := dict[p]] else CopiedProps(props, names, dict);
    assert forall q :: q in names + [p] <==> q in names || q == p;
    assert a.Keys == b.Keys;
  }

  /** The payload `ProductionMessage.__init__` sees from `JsonSerialize.__init__`: the wrapper's document when none was given. */
  function EffectivePayload(hasWrapper: bool, stored: string, payload: Option<Payload>): Option<Payload> {
    if hasWrapper && payload.None? then Some(TextPayload(stored)) else payload
  }

  /** A decoder that is never called (fresh construction decodes nothing). */
  function NoDecoder(s: string): Option<map<string, Value>> {
    None
  }

  /** An instance of a message class. */
  class Message {
    const msgType: MessageType
    var fields: map<string, Value>     // the data fields in the instance `__dict__`
    var serializer: string             // `_serializer`, also in the instance `__dict__`
    var wrapper: Wrapper?              // the `_iris_message_wrapper` slot; null while it holds ""
    var serialStream: string           // the `_serial_stream` slot

    constructor (t: MessageType, fields: map<string, Value>, serializer: string, wrapper: Wrapper?, serialStream: string)
      ensures msgType == t && this.fields == fields && this.serializer == serializer
      ensures this.wrapper == wrapper && this.serialStream == serialStream
    {
      msgType := t;
      this.fields := fields;
      this.serializer := serializer;
      this.wrapper := wrapper;
      this.serialStream := serialStream;
    }

    /** `self.__dict__`: the fields, and `_serializer` written last by the constructor. */
    function InstanceDict(): map<string, Value>
      reads this
    {
      fields["_serializer" := Str(serializer)]
    }

    /** The state `pickle.dumps(self)` records; only taken while the wrapper is detached. */
    function Snapshot(): (s: PickleState)
      reads this
      requires wrapper == null
      ensures s.wrapperSlot == ""
    {
      PickleState(msgType, fields, serializer, serialStream, "")
    }

    /**
     * `ProductionMessage.__init__`: validate the argument shape, then either
     * rehydrate from the given wrapper and payload or build a fresh message on
     * a new wrapper of the host class for `package.ClassName`.
     */
    static method Init(t: MessageType, args: seq<Value>, kwargs: seq<(string, Value)>, wrapper: Wrapper?,
                       payload: Option<Payload>, serializer: string, loads: string -> Option<map<string, Value>>,
                       hostClasses: map<string, IrisClass>) returns (r: Result<Message, Error>)
      ensures var spec := InitSpec(t, args, kwargs, wrapper != null, if wrapper != null then wrapper.props else map[],
                                   payload, serializer, loads, t.fullName in hostClasses);
              && (r.Failure? <==> spec.Failure?)
              && (r.Failure? ==> r.error == spec.error)
              && (r.Success? ==> fresh(r.value) && r.value.msgType == t && r.value.fields == spec.value
                                 && r.value.serializer == serializer && r.value.serialStream == "")
      ensures r.Success? && wrapper != null ==> r.value.wrapper == wrapper
      ensures r.Success? && wrapper == null ==>
                r.value.wrapper != null && fresh(r.value.wrapper) && r.value.wrapper.irisClass == hostClasses[t.fullName]
                && r.value.wrapper.props == hostClasses[t.fullName].initialProps && r.value.wrapper.stream.content == []
    {
      if payload.Some? != (wrapper != null) {
        return Failure(WrapperPayloadMismatch);
      }
      if (|args| > 0 || |kwargs| > 0) && wrapper != null {
        return Failure(MixedConstruction);
      }
      var fields: map<string, Value> := map[];
      var w: Wrapper;
      if wrapper != null {
        w := wrapper;
        if payload.value == TextPayload("") {
          var fallback := ColumnFallback(t.columnNames, wrapper.props, map[]);
          if fallback.Failure? {
            return Failure(fallback.error);
          }
          fields := fallback.value;
          assert map[] + WrapperColumns(t.columnNames, wrapper.props) == WrapperColumns(t.columnNames, wrapper.props);
        } else if serializer != "pickle" {
          var data: map<string, Value>;
          match payload.value {
            case DictPayload(d) =>
              data := d;
            case TextPayload(s) =>
              var decoded := loads(s);
              if decoded.None? {
                return Failure(DecodeFailure);
              }
              data := decoded.value;
          }
          fields := ApplyDecoded(t, data);
        }
      } else {
        if t.fullName !in hostClasses {
          return Failure(NoHostClass(t.fullName));
        }
        w := new Wrapper.New(hostClasses[t.fullName]);
        var bound := BindArguments(t.fieldNames, args, kwargs);
        if bound.Failure? {
          return Failure(bound.error);
        }
        fields := ResolveFields(t, bound.value);
      }
      var m := new Message(t, fields, serializer, w, "");
      r := Success(m);
    }

    /**
     * `JsonSerialize.__init__`: a wrapper given without a payload has its
     * document pulled chunk by chunk and passed on as the payload.
     */
    static method JsonInit(t: MessageType, args: seq<Value>, kwargs: seq<(string, Value)>, wrapper: Wrapper?,
                           payload: Option<Payload>, loads: string -> Option<map<string, Value>>,
                           hostClasses: map<string, IrisClass>) returns (r: Result<Message, Error>)
      ensures var spec := InitSpec(t, args, kwargs, wrapper != null, if wrapper != null then wrapper.props else map[],
                                   EffectivePayload(wrapper != null, if wrapper != null then wrapper.stream.content else [], payload),
                                   "json", loads, t.fullName in hostClasses);
              && (r.Failure? <==> spec.Failure?)
              && (r.Failure? ==> r.error == spec.error)
              && (r.Success? ==> fresh(r.value) && r.value.msgType == t && r.value.fields == spec.value
                                 && r.value.serializer == "json" && r.value.serialStream == "")
      ensures r.Success? && wrapper != null ==> r.value.wrapper == wrapper
      ensures r.Success? && wrapper == null ==>
                r.value.wrapper != null && fresh(r.value.wrapper) && r.value.wrapper.irisClass == hostClasses[t.fullName]
                && r.value.wrapper.props == hostClasses[t.fullName].initialProps && r.value.wrapper.stream.content == []
    {
      var given := payload;
      if wrapper != null && payload.None? {
        var blob, _ := PullChunks(wrapper.Replies());
        ReadBackWritten(wrapper.stream.content, ChunkSize);
        given := Some(TextPayload(blob));
      }
      r := Init(t, args, kwargs, wrapper, given, "json", loads, hostClasses);
    }

    /** `PickleSerialize.__init__` without a wrapper: a fresh message with an empty serial stream. */
    static method PickleInit(t: MessageType, args: seq<Value>, kwargs: seq<(string, Value)>,
                             hostClasses: map<string, IrisClass>) returns (r: Result<Message, Error>)
      ensures var spec := InitSpec(t, args, kwargs, false, map[], None, "pickle", NoDecoder, t.fullName in hostClasses);
              && (r.Failure? <==> spec.Failure?)
              && (r.Failure? ==> r.error == spec.error)
              && (r.Success? ==> fresh(r.value) && r.value.msgType == t && r.value.fields == spec.value
                                 && r.value.serializer == "pickle" && r.value.serialStream == "")
      ensures r.Success? ==> r.value.wrapper != null && fresh(r.value.wrapper)
                             && r.value.wrapper.irisClass == hostClasses[t.fullName]
                             && r.value.wrapper.props == hostClasses[t.fullName].initialProps
                             && r.value.wrapper.stream.content == []
    {
      r := Init(t, args, kwargs, null, None, "pickle", NoDecoder, hostClasses);
    }

    /** `JsonSerialize.chunksFromPython`: encode on the first request, then hand out `[start:end]`. */
    method ChunkFromJson(iteration: nat, start: nat, end: nat, dumps: map<string, Value> -> string) returns (chunk: string)
      modifies this
      ensures fields == old(fields) && serializer == old(serializer) && wrapper == old(wrapper)
      ensures serialStream == (if iteration == 0 then dumps(old(InstanceDict())) else old(serialStream))
      ensures chunk == Slice(serialStream, start, end)
    {
      if iteration == 0 {
        serialStream := dumps(InstanceDict());
      }
      chunk := Slice(serialStream, start, end);
    }

    /**
     * `PickleSerialize.chunksFromPython`: on the first request the wrapper is
     * detached, the object pickled, and the wrapper put back.
     */
    method ChunkFromPickle(iteration: nat, start: nat, end: nat, dumps: PickleState -> string) returns (chunk: string)
      modifies this
      ensures fields == old(fields) && serializer == old(serializer) && wrapper == old(wrapper)
      ensures serialStream == (if iteration == 0
                               then dumps(PickleState(msgType, old(fields), old(serializer), old(serialStream), ""))
                               else old(serialStream))
      ensures chunk == Slice(serialStream, start, end)
    {
      if iteration == 0 {
        var temp := wrapper;
        wrapper := null;
        serialStream := dumps(Snapshot());
        wrapper := temp;
      }
      chunk := Slice(serialStream, start, end);
    }

    /** `create_iris_message_object_properties`: copy each declared property the instance dictionary holds. */
    method CopyProperties(target: Wrapper)
      modifies target
      ensures target.props == CopiedProps(old(target.props), target.irisClass.propertyNames, InstanceDict())
      ensures target.stream == old(target.stream)
    {
      var names := target.irisClass.propertyNames;
      var dict := InstanceDict();
      var i := 0;
      while i < |names|
        invariant i <= |names|
        invariant target.props == CopiedProps(old(target.props), names[..i], dict)
        invariant target.stream == old(target.stream)
      {
        var prop := names[i];
        assert names[..i + 1] == names[..i] + [prop];
        CopiedPropsSnoc(old(target.props), names[..i], prop, dict);
        if prop in dict {
          target.props := target.props[prop := dict[prop]];
        }
        i := i + 1;
      }
      assert names[..i] == names;
    }

    /**
     * The writer loop of `JsonSerialize.update_iris_message_object`: request
     * 3 MiB chunks from the encoder until an empty one and write each into a
     * new stream, which then holds the JSON document in exactly its chunks.
     */
    method WriteJsonChunks(dumps: map<string, Value> -> string) returns (newStream: Stream)
      modifies this
      ensures fields == old(fields) && serializer == old(serializer) && wrapper == old(wrapper)
      ensures serialStream == dumps(old(InstanceDict()))
      ensures fresh(newStream) && newStream.content == serialStream
      ensures newStream.pieces == Segments(newStream.content, ChunkSize)
    {
      newStream := new Stream();
      var start := 0;
      var iteration := 0;
      var chunk := ChunkFromJson(iteration, start, start + ChunkSize, dumps);
      ghost var blob := serialStream;
      while chunk != []
        invariant fields == old(fields) && serializer == old(serializer) && wrapper == old(wrapper)
        invariant blob == dumps(old(InstanceDict())) && serialStream == blob
        invariant start == iteration * ChunkSize
        invariant chunk == Slice(blob, start, start + ChunkSize)
        invariant Written(blob, ChunkSize, start, newStream.content, newStream.pieces)
        invariant fresh(newStream)
        decreases |blob| - start
      {
        WrittenStep(blob, ChunkSize, start, newStream.content, newStream.pieces);
        newStream.Write(chunk);
        iteration := iteration + 1;
        start := start + ChunkSize;
        chunk := ChunkFromJson(iteration, start, start + ChunkSize, dumps);
      }
      WrittenDone(blob, ChunkSize, start, newStream.content, newStream.pieces);
    }

    /**
     * `JsonSerialize.update_iris_message_object`: write the JSON document into
     * a new stream in chunks of 3 MiB, attach the stream, copy properties, and
     * clear the serial stream.
     */
    method UpdateJson(dumps: map<string, Value> -> string)
      requires wrapper != null
      modifies this, wrapper
      ensures wrapper == old(wrapper) && fields == old(fields) && serializer == old(serializer)
      ensures fresh(wrapper.stream) && wrapper.stream.content == dumps(old(InstanceDict()))
      ensures wrapper.stream.pieces == Segments(wrapper.stream.content, ChunkSize)
      ensures wrapper.props == CopiedProps(old(wrapper.props), wrapper.irisClass.propertyNames, InstanceDict())
      ensures serialStream == ""
    {
      var newStream := WriteJsonChunks(dumps);
      wrapper.stream := newStream;
      CopyProperties(wrapper);
      serialStream := "";
    }

    /**
     * The writer loop of `PickleSerialize.update_iris_message_object`: the same
     * loop over the pickled object, each chunk passed through the host's bytes
     * conversion (the identity on the modelled characters).
     */
    method WritePickleChunks(dumps: PickleState -> string) returns (newStream: Stream)
      modifies this
      ensures fields == old(fields) && serializer == old(serializer) && wrapper == old(wrapper)
      ensures serialStream == dumps(PickleState(msgType, old(fields), old(serializer), old(serialStream), ""))
      ensures fresh(newStream) && newStream.content == serialStream
      ensures newStream.pieces == Segments(newStream.content, ChunkSize)
    {
      newStream := new Stream();
      var start := 0;
      var iteration := 0;
      var chunk := ChunkFromPickle(iteration, start, start + ChunkSize, dumps);
      var bytes := chunk;
      ghost var blob := serialStream;
      while bytes != []
        invariant fields == old(fields) && serializer == old(serializer) && wrapper == old(wrapper)
        invariant blob == dumps(PickleState(msgType, old(fields), old(serializer), old(serialStream), ""))
        invariant serialStream == blob
        invariant start == iteration * ChunkSize
        invariant bytes == chunk == Slice(blob, start, start + ChunkSize)
        invariant Written(blob, ChunkSize, start, newStream.content, newStream.pieces)
        invariant fresh(newStream)
        decreases |blob| - start
      {
        WrittenStep(blob, ChunkSize, start, newStream.content, newStream.pieces);
        newStream.Write(bytes);
        iteration := iteration + 1;
        start := start + ChunkSize;
        chunk := ChunkFromPickle(iteration, start, start + ChunkSize, dumps);
        bytes := chunk;
      }
      WrittenDone(blob, ChunkSize, start, newStream.content, newStream.pieces);
    }

    /**
     * `PickleSerialize.update_iris_message_object`: write the pickled object
     * into a new stream in chunks of 3 MiB, attach the stream, copy
     * properties, and clear the serial stream.
     */
    method UpdatePickle(dumps: PickleState -> string)
      requires wrapper != null
      modifies this, wrapper
      ensures wrapper == old(wrapper) && fields == old(fields) && serializer == old(serializer)
      ensures fresh(wrapper.stream)
      ensures wrapper.stream.content == dumps(PickleState(msgType, old(fields), old(serializer), old(serialStream), ""))
      ensures wrapper.stream.pieces == Segments(wrapper.stream.content, ChunkSize)
      ensures wrapper.props == CopiedProps(old(wrapper.props), wrapper.irisClass.propertyNames, InstanceDict())
      ensures serialStream == ""
    {
      var newStream := WritePickleChunks(dumps);
      wrapper.stream := newStream;
      CopyProperties(wrapper);
      serialStream := "";
    }
  }

  /**
   * `unpickle_binary`: pull the pickled object from the wrapper. A non-empty
   * blob is unpickled and bound to the wrapper. An empty one gives a fresh
   * message with defaults (on a new wrapper of its own) whose column fields
   * are then taken from the wrapper's non-empty properties.
   */
  method UnpickleBinary(w: Wrapper, t: MessageType, loads: string -> Option<PickleState>,
                        hostClasses: map<string, IrisClass>) returns (r: Result<Message, Error>)
    ensures w.stream.content != [] && loads(w.stream.content).None? ==> r == Failure(DecodeFailure)
    ensures w.stream.content != [] && loads(w.stream.content).Some? ==>
              var st := loads(w.stream.content).value;
              && r.Success? && fresh(r.value) && r.value.wrapper == w
              && r.value.msgType == st.msgType && r.value.fields == st.fields
              && r.value.serializer == st.serializer && r.value.serialStream == st.serialStream
    ensures w.stream.content == [] ==>
              var spec := InitSpec(t, [], [], false, map[], None, "pickle", NoDecoder, t.fullName in hostClasses);
              && (spec.Failure? ==> r == Failure(spec.error))
              && (spec.Success? && FirstMissing(t.columnNames, w.props).Some? ==>
                    r == Failure(MissingAttribute(FirstMissing(t.columnNames, w.props).value)))
              && (spec.Success? && FirstMissing(t.columnNames, w.props).None? ==>
                    r.Success? && fresh(r.value) && r.value.msgType == t && r.value.serializer == "pickle"
                    && r.value.fields == spec.value + WrapperColumns(t.columnNames, w.props)
                    && r.value.serialStream == "" && r.value.wrapper != w
                    && r.value.wrapper != null && fresh(r.value.wrapper)
                    && r.value.wrapper.irisClass == hostClasses[t.fullName]
                    && r.value.wrapper.props == hostClasses[t.fullName].initialProps
                    && r.value.wrapper.stream.content == [])
  {
    var blob, _ := PullChunks(w.Replies());
    ReadBackWritten(w.stream.content, ChunkSize);
    if blob != [] {
      var decoded := loads(blob);
      if decoded.None? {
        return Failure(DecodeFailure);
      }
      var st := decoded.value;
      var m := new Message(st.msgType, st.fields, st.serializer, null, st.serialStream);
      m.wrapper := w;
      r := Success(m);
    } else {
      var built := Message.PickleInit(t, [], [], hostClasses);
      if built.Failure? {
        return Failure(built.error);
      }
      var m := built.value;
      var fields := ColumnFallback(t.columnNames, w.props, m.fields);
      if fields.Failure? {
        return Failure(fields.error);
      }
      m.fields := fields.value;
      r := Success(m);
    }
  }

  /**
   * A message encoded as JSON reads back with the same fields, provided the
   * encoder round-trips its instance dictionary, its fields are all declared,
   * and no field is named `_serializer`.
   */
  lemma JsonRoundTrip(t: MessageType, fields: map<string, Value>, props: map<string, Value>, codec: Codec, found: bool)
    requires "_serializer" !in t.fieldNames
    requires forall n :: n in fields ==> n in t.fieldNames
    requires var d := fields["_serializer" := Str("json")];
             codec.loadsJson(codec.dumpsJson(d)) == Some(d) && codec.dumpsJson(d) != ""
    ensures var d := fields["_serializer" := Str("json")];
            InitSpec(t, [], [], true, props, EffectivePayload(true, codec.dumpsJson(d), None), "json", codec.loadsJson, found)
              == Success(fields)
  {
    var d := fields["_serializer" := Str("json")];
    var text := codec.dumpsJson(d);
    assert TextPayload(text) != TextPayload("");
    assert Rehydrated(t, d).Keys == fields.Keys;
    assert forall n :: n in fields ==> Rehydrated(t, d)[n] == fields[n];
    assert Rehydrated(t, d) == fields;
  }

  /**
   * Writing a JSON message into its wrapper and rebuilding a message from that
   * wrapper gives back the same fields, bound to the same wrapper.
   */
  method JsonThroughWrapper(m: Message, codec: Codec, hostClasses: map<string, IrisClass>) returns (r: Result<Message, Error>)
    requires m.wrapper != null && m.serializer == "json"
    requires "_serializer" !in m.msgType.fieldNames
    requires forall n :: n in m.fields ==> n in m.msgType.fieldNames
    requires var d := m.InstanceDict(); codec.loadsJson(codec.dumpsJson(d)) == Some(d) && codec.dumpsJson(d) != ""
    modifies m, m.wrapper
    ensures r.Success? && r.value.fields == old(m.fields) && r.value.wrapper == m.wrapper && r.value.msgType == m.msgType
  {
    m.UpdateJson(codec.dumpsJson);
    JsonRoundTrip(m.msgType, m.fields, m.wrapper.props, codec, m.msgType.fullName in hostClasses);
    r := Message.JsonInit(m.msgType, [], [], m.wrapper, None, codec.loadsJson, hostClasses);
  }

  /**
   * Writing a pickled message into its wrapper and unpickling from that
   * wrapper gives back the same type, fields and serializer, bound to the
   * same wrapper, provided the pickler round-trips the recorded state.
   */
  method PickleThroughWrapper(m: Message, codec: Codec, hostClasses: map<string, IrisClass>) returns (r: Result<Message, Error>)
    requires m.wrapper != null
    requires var st := PickleState(m.msgType, m.fields, m.serializer, m.serialStream, "");
             codec.loadsPickle(codec.dumpsPickle(st)) == Some(st) && codec.dumpsPickle(st) != ""
    modifies m, m.wrapper
    ensures r.Success? && r.value.wrapper == m.wrapper
    ensures r.value.msgType == m.msgType && r.value.fields == old(m.fields) && r.value.serializer == old(m.serializer)
    ensures r.value.serialStream == old(m.serialStream)
  {
    m.UpdatePickle(codec.dumpsPickle);
    r := UnpickleBinary(m.wrapper, m.msgType, codec.loadsPickle, hostClasses);
  }
}
