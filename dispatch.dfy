/**
 * The two directions in which a business host converts messages: an object
 * arriving from IRIS is upgraded to its registered Python message class
 * (`_createmessage`), and an object a handler hands back is turned into
 * what IRIS receives (`request_to_send`).
 */
module Dispatch {
  import opened Wrappers
  import opened PyValues
  import opened QualifiedNames
  import opened TypeRegistry
  import opened Chunks
  import opened Construction
  import opened Messages

  /** What `_createmessage` does with an incoming object. */
  datatype Route = PassThrough | Unpickle(t: MessageType) | Construct(t: MessageType)

  /** The result of `_createmessage`: the object itself, or a message built from it. */
  datatype Dispatched = PassedThrough(w: Wrapper) | Upgraded(m: Message)

  /** What a handler hands back: one of its messages, a host object, or a plain value. */
  datatype Outbound = OutMessage(m: Message) | OutHost(w: Wrapper) | OutValue(v: Value)

  /** What IRIS receives. */
  datatype Sent = SentHost(w: Wrapper) | SentValue(v: Value)

  /**
   * The routing decision: look up the module name without its `iris.` prefix,
   * a dot and the class name; unregistered objects pass through, pickled
   * message classes are unpickled, the others are constructed on the wrapper.
   */
  function RouteOf(entries: map<string, MessageType>, c: IrisClass): (route: Route)
    ensures var key := IncomingKey(c.moduleName, c.className);
            && (route.PassThrough? <==> key !in entries)
            && (!route.PassThrough? ==> route.t == entries[key])
            && (route.Unpickle? <==> key in entries && entries[key].strategy == PickleStrategy)
  {
    var key := IncomingKey(c.moduleName, c.className);
    if key !in entries then PassThrough
    else if entries[key].strategy == PickleStrategy then Unpickle(entries[key])
    else Construct(entries[key])
  }

  /**
   * An object of the IRIS class generated for a registered message class (module
   * `iris.<package>`, same class name) is routed to that message class.
   */
  lemma RegisteredClassRoutes(entries: map<string, MessageType>, t: MessageType, propertyNames: seq<string>,
                               initialProps: map<string, Value>)
    requires t.fullName == QualifiedName(t.package, t.className)
    requires t.fullName in entries && entries[t.fullName] == t
    ensures var route := RouteOf(entries, IrisClass("iris." + t.package, t.className, propertyNames, initialProps));
            && !route.PassThrough? && route.t == t
            && (route.Unpickle? <==> t.strategy == PickleStrategy)
  {
    IncomingKeyOfIrisModule(t.package, t.className);
  }

  /** Objects of a class never registered, such as host data classes, pass through. */
  lemma UnregisteredPassesThrough(entries: map<string, MessageType>, pkg: string, c: IrisClass)
    requires c.moduleName == "iris." + pkg
    requires QualifiedName(pkg, c.className) !in entries
    ensures RouteOf(entries, c) == PassThrough
  {
    IncomingKeyOfIrisModule(pkg, c.className);
  }

  /**
   * `BaseClass._createmessage`: route the incoming object, then unpickle it,
   * construct the registered class on it, or return it unchanged.
   */
  method CreateMessage(registry: Registry<MessageType>, w: Wrapper, codec: Codec, hostClasses: map<string, IrisClass>)
    returns (r: Result<Dispatched, Error>)
    ensures RouteOf(registry.entries, w.irisClass).PassThrough? ==> r == Success(PassedThrough(w))
    ensures RouteOf(registry.entries, w.irisClass).Construct? ==>
              var t := RouteOf(registry.entries, w.irisClass).t;
              && (t.strategy == PlainMessage ==> r == Failure(WrapperPayloadMismatch))
              && (t.strategy == JsonStrategy ==>
                    var spec := InitSpec(t, [], [], true, w.props, Some(TextPayload(w.stream.content)), "json",
                                         codec.loadsJson, t.fullName in hostClasses);
                    && (r.Success? <==> spec.Success?)
                    && (r.Failure? ==> r.error == spec.error)
                    && (r.Success? ==> r.value.Upgraded? && fresh(r.value.m) && r.value.m.wrapper == w
                                       && r.value.m.msgType == t && r.value.m.fields == spec.value
                                       && r.value.m.serializer == "json" && r.value.m.serialStream == ""))
    ensures RouteOf(registry.entries, w.irisClass).Unpickle? ==>
              && (w.stream.content != [] && codec.loadsPickle(w.stream.content).None? ==> r == Failure(DecodeFailure))
              && (w.stream.content != [] && codec.loadsPickle(w.stream.content).Some? ==>
                    var st := codec.loadsPickle(w.stream.content).value;
                    && r.Success? && r.value.Upgraded? && fresh(r.value.m) && r.value.m.wrapper == w
                    && r.value.m.msgType == st.msgType && r.value.m.fields == st.fields
                    && r.value.m.serializer == st.serializer && r.value.m.serialStream == st.serialStream)
              && (w.stream.content == [] ==>
                    var t := RouteOf(registry.entries, w.irisClass).t;
                    var spec := InitSpec(t, [], [], false, map[], None, "pickle", NoDecoder, t.fullName in hostClasses);
                    && (spec.Failure? ==> r == Failure(spec.error))
                    && (spec.Success? && FirstMissing(t.columnNames, w.props).Some? ==>
                          r == Failure(MissingAttribute(FirstMissing(t.columnNames, w.props).value)))
                    && (spec.Success? && FirstMissing(t.columnNames, w.props).None? ==>
                          r.Success? && r.value.Upgraded? && fresh(r.value.m) && r.value.m.msgType == t
                          && r.value.m.fields == spec.value + WrapperColumns(t.columnNames, w.props)
                          && r.value.m.serializer == "pickle" && r.value.m.serialStream == ""
                          && r.value.m.wrapper != w && r.value.m.wrapper != null && fresh(r.value.m.wrapper)
                          && r.value.m.wrapper.irisClass == hostClasses[t.fullName]
                          && r.value.m.wrapper.props == hostClasses[t.fullName].initialProps
                          && r.value.m.wrapper.stream.content == []))
              && (r.Success? ==> r.value.Upgraded? && fresh(r.value.m))
  {
    var route := RouteOf(registry.entries, w.irisClass);
    match route {
      case PassThrough =>
        r := Success(PassedThrough(w));
      case Unpickle(t) =>
        var m := UnpickleBinary(w, t, codec.loadsPickle, hostClasses);
        if m.Failure? {
          return Failure(m.error);
        }
        r := Success(Upgraded(m.value));
      case Construct(t) =>
        var m;
        if t.strategy == JsonStrategy {
          m := Message.JsonInit(t, [], [], w, None, codec.loadsJson, hostClasses);
        } else {
          m := Message.Init(t, [], [], w, None, "json", codec.loadsJson, hostClasses);
        }
        if m.Failure? {
          return Failure(m.error);
        }
        r := Success(Upgraded(m.value));
    }
  }

  /**
   * `BaseClass.request_to_send`: the empty string stays the empty string, a
   * message refreshes its wrapper by its class's update and is replaced by
   * that wrapper, anything else is passed on as it is.
   */
  method RequestToSend(request: Outbound, codec: Codec) returns (s: Sent)
    requires request.OutMessage? ==> request.m.wrapper != null
    modifies if request.OutMessage? then {request.m, request.m.wrapper} else {}
    ensures request.OutValue? ==> s == SentValue(request.v)
    ensures request.OutHost? ==> s == SentHost(request.w)
    ensures request.OutMessage? ==>
              var m := request.m;
              && m.wrapper == old(m.wrapper) && s == SentHost(m.wrapper)
              && m.fields == old(m.fields) && m.serializer == old(m.serializer)
              && (m.msgType.strategy == JsonStrategy ==>
                    m.wrapper.stream.content == codec.dumpsJson(old(m.InstanceDict()))
                    && m.wrapper.stream.pieces == Segments(m.wrapper.stream.content, ChunkSize)
                    && m.serialStream == ""
                    && m.wrapper.props == CopiedProps(old(m.wrapper.props), m.wrapper.irisClass.propertyNames, m.InstanceDict()))
              && (m.msgType.strategy == PickleStrategy ==>
                    m.wrapper.stream.content
                      == codec.dumpsPickle(PickleState(m.msgType, m.fields, m.serializer, old(m.serialStream), ""))
                    && m.wrapper.stream.pieces == Segments(m.wrapper.stream.content, ChunkSize)
                    && m.serialStream == ""
                    && m.wrapper.props == CopiedProps(old(m.wrapper.props), m.wrapper.irisClass.propertyNames, m.InstanceDict()))
              && (m.msgType.strategy == PlainMessage ==>
                    m.wrapper.stream == old(m.wrapper.stream) && m.wrapper.props == old(m.wrapper.props))
  {
    match request {
      case OutValue(v) =>
        if v == Str("") {
          return SentValue(Str(""));
        }
        s := SentValue(v);
      case OutHost(w) =>
        s := SentHost(w);
      case OutMessage(m) =>
        if m.msgType.strategy == JsonStrategy {
          m.UpdateJson(codec.dumpsJson);
        } else if m.msgType.strategy == PickleStrategy {
          m.UpdatePickle(codec.dumpsPickle);
        }
        s := SentHost(m.wrapper);
    }
  }
}
