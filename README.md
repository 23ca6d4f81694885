# pyprod message layer in Dafny

This project models the message layer of `intersystems_pyprod`. That is the
Python side of InterSystems IRIS interoperability productions written in
Python. A production's business hosts exchange *messages*: instances of user
classes derived from `JsonSerialize` or `PickleSerialize`. Each message is
bound to an *IRIS wrapper*, a host object of a class the host generated for
the message class. The layer covers:

- **Field order.** When a message class is defined, the top-level statements
  of its class body are read to get its field names, in order of first
  declaration, and its *column* fields. A column field is one whose first
  declaration is a bare `Column(...)` call.
- **Registries.** Every host class and message class is registered under
  `package.ClassName`. The package is the class's `package_name`, else the
  module's `package_name`, else the last dotted part of the module name.
- **Construction.** `ProductionMessage.__init__` accepts three argument shapes:
  fresh with arguments, fresh with defaults, or rehydration from a wrapper
  plus a payload. Any other shape raises `TypeError`.
- **Chunked transport.** A message is written into its wrapper's
  `SerializedStream` in 3 MiB chunks, encoded as JSON or pickled. It is read
  back by requesting chunks 0, 1, 2, … until an empty one arrives.
- **Dispatch.** `_createmessage` upgrades an incoming IRIS object to its
  registered message class. `request_to_send` turns an outgoing message into
  its refreshed wrapper. The `*Helper` entry points shape a handler's result
  into the reply dictionary.

Modules: `FieldOrder` (field_order.dfy), `QualifiedNames` (qualified_names.dfy),
`TypeRegistry` (type_registry.dfy), `Chunks` (chunks.dfy), `Construction`
(construction.dfy), `Messages` (messages.dfy), `Dispatch` (dispatch.dfy),
`Replies` (replies.dfy), and `Scenarios` (scenarios.dfy). `Scenarios` holds the
message classes of the example productions as concrete cases. `PyValues` and
`Wrappers` hold the Python values, the exceptions, Python slicing, and
`Option`/`Result`.

Modelling choices:

- A parsed class body is a `seq<Stmt>`. The class attributes that
  `getattr(cls, name)` would find are an input map.
- A message is a `Message` object. Its fields are a map, and `_serializer`,
  the wrapper slot and the `_serial_stream` slot are separate fields.
  `InstanceDict()` is what `self.__dict__` holds: the fields plus
  `_serializer`. The subclass's class attribute `_serializer` shadows the
  slot, so the constructor's write lands in the instance dictionary.
- A wrapper is a `Wrapper` object. It holds its IRIS class (module, name and
  the property list the class definition declares), its property values, and
  its `SerializedStream`. The host answers `chunksFromIRIS(i, size)` with the
  i-th `size`-long segment of that stream.
- `json` and `pickle` are the uninterpreted functions of a `Codec`. Their
  round trip is a hypothesis of the round-trip lemmas.
- The writer loops call `Stream.Write`. Its precondition is the host's string
  limit (`MaxString`, 3,641,144 characters), so every chunk is proved to fit.

Three behaviours of the code worth noting:

- An incoming object whose key is not registered is returned unchanged
  (`_production_connector.py:250-252`). The `LookupError` raised at 258-259 is
  not reached from the registry: after the membership test at 250, the
  lookup at 254 cannot raise `KeyError`.
- Rehydrating a JSON message from the empty document copies the non-empty
  column values from the wrapper. Every other field is left unset, not set to
  its default (`_production_connector.py:675-678`).
- For a pickled message with an empty stream, `unpickle_binary` builds
  `MsgCls()`. That message is bound to a newly allocated wrapper, not to the
  incoming one (`_production_connector.py:896-900`).

## Model

All source paths are relative to the repository root.

| member | source | states |
|---|---|---|
| FieldOrder.ExtractFieldOrder | src/intersystems_pyprod/_production_connector.py:743-781 | Raises the missing-class-body error exactly when the parsed source has no top-level class of that name. Otherwise it returns the schema of that class's body, and the schema is valid: no duplicate names, exactly the declared names in first-declaration order, columns exactly the names whose first declaration is a bare `Column(...)` call, columns a subsequence of the names |
| FieldOrder.FindClassBody | src/intersystems_pyprod/_production_connector.py:750-759 | None exactly when no top-level statement is a class of that name; otherwise the body of the first such class |
| FieldOrder.SchemaOfIsValid | src/intersystems_pyprod/_production_connector.py:761-781 | The single pass with a `seen` set yields a valid schema for every class body: first occurrence wins and column order follows name order |
| FieldOrder.ColumnFilterIsSubsequence | src/intersystems_pyprod/_production_connector.py:765-779 | The columns keep the relative order they have among the names |
| FieldOrder.RedeclarationKeepsColumnFlag | src/intersystems_pyprod/_production_connector.py:764-779 | Declarations of a name after its first one change neither its position nor whether it is a column |
| FieldOrder.NonFieldStatementsIgnored | src/intersystems_pyprod/_production_connector.py:761-781 | A method, nested class, other statement, or assignment with no bare-name target (tuple, attribute or subscript) leaves the schema unchanged wherever it stands in the body |
| FieldOrder.MyPickleDataSchema | tests/helpers/QuickStart.py:25-27 | `MyPickleData` has names `[name, amount]` and columns `[name]` |
| QualifiedNames.ResolvePackage | src/intersystems_pyprod/_production_connector.py:628-640 | The class's `package_name` wins, then the module's. Otherwise the package is the last dotted component of the module name: it has no dot, ends the module name, and is preceded by a dot when shorter |
| QualifiedNames.LastComponent | src/intersystems_pyprod/_production_connector.py:640 | `split(".")[-1]`: a dot-free suffix, preceded by a dot unless it is the whole string |
| QualifiedNames.QualifiedNameInjective | src/intersystems_pyprod/_production_connector.py:641 | Two classes share a key only if package and class name are equal (class names hold no dot) |
| QualifiedNames.ClassNameOfQualifiedName | src/intersystems_pyprod/_production_connector.py:641 | The class name is recovered as the last dotted component of the key |
| QualifiedNames.IncomingKey | src/intersystems_pyprod/_production_connector.py:246-249 | The incoming key is the module name without its first five characters, a dot, and the class name; a module name shorter than five gives `"." + class` |
| QualifiedNames.IncomingKeyOfIrisModule | src/intersystems_pyprod/_production_connector.py:246-250 | An IRIS class in module `iris.<pkg>` gets exactly the key its Python class was registered under |
| QualifiedNames.IncomingKeyIgnoresPrefix | src/intersystems_pyprod/_production_connector.py:246 | Any five-character prefix is dropped, whatever its characters |
| QualifiedNames.ModuleNameKey | src/intersystems_pyprod/_production_connector.py:634-640 | A class in a dot-free module with no `package_name` on the class or module is keyed `module.ClassName` |
| QualifiedNames.QuickStartKey | tests/helpers/QuickStart.py:19-27 | A module naming its package only as `iris_package_name` gets the module-name key `QuickStart.MyPickleData` |
| TypeRegistry.Registry.Register | src/intersystems_pyprod/_production_connector.py:644 | A plain store: the key maps to the new class, any earlier entry under it is replaced, and every other key keeps its entry |
| TypeRegistry.Registry.Lookup | src/intersystems_pyprod/_production_connector.py:250-254 | Found exactly when the key is registered, yielding the registered class |
| TypeRegistry.DefineMessageClass | src/intersystems_pyprod/_production_connector.py:624-644 | On a class with a locatable body, registers a type carrying the resolved package, the key `pkg.ClassName` and the extracted schema; otherwise raises and leaves the registry unchanged |
| TypeRegistry.DefineHostClass | src/intersystems_pyprod/_production_connector.py:219-238 | Registers a host class under `pkg.ClassName` with the same package resolution |
| TypeRegistry.SameNameDifferentPackages | src/intersystems_pyprod/_production_connector.py:641-644 | Same class name in two packages: both entries stay retrievable |
| TypeRegistry.TwoPackagesScenario | src/intersystems_pyprod/_production_connector.py:624-644 | Defining class `A` with package `P1` and again with package `P2`: looking up `P1.A` and `P2.A` afterwards yields each package's own class, with its field `x` |
| Chunks.PullChunks | src/intersystems_pyprod/_production_connector.py:815-823 | Requests segments 0, 1, … in order and stops at the first empty one (one request more than the non-empty prefix). The result is the concatenation of the segments before it; an empty source gives an empty blob |
| Chunks.PullStopsAtFirstEmpty | src/intersystems_pyprod/_production_connector.py:884-891 | Segments after the first empty one never reach the result |
| Chunks.ReadBackWritten | src/intersystems_pyprod/_production_connector.py:882-891 | Pulling the chunks a blob was written in gives the blob back |
| Chunks.ConcatSegments | src/intersystems_pyprod/_production_connector.py:849-860 | The chunks the writer cuts concatenate to exactly the blob |
| Chunks.SegmentsBounded | src/intersystems_pyprod/_production_connector.py:961-974 | Every written chunk is non-empty and at most the chunk size long |
| Chunks.SegmentsCount | src/intersystems_pyprod/_production_connector.py:851-860 | The writer produces ceil(len / chunkSize) chunks |
| Chunks.WrittenStep | src/intersystems_pyprod/_production_connector.py:855-859 | Writing the chunk at the cursor and advancing by the chunk size keeps "stream = blob up to the cursor, chunks written + chunks to come = the blob's chunks" |
| Chunks.WrittenDone | src/intersystems_pyprod/_production_connector.py:855-860 | When the slice at the cursor is empty, the stream holds the whole blob, written in exactly the blob's chunks |
| Chunks.TenInFours | src/intersystems_pyprod/_production_connector.py:851-860 | A 10-element blob in chunks of 4 is written as chunks of 4, 4 and 2 |
| Construction.BindArguments | src/intersystems_pyprod/_production_connector.py:705-718 | Result of the positional and keyword loops: too many positionals raise with the field count and argument count; the first unknown keyword raises; otherwise keyword bindings over positional bindings |
| Construction.FirstUnknownKeyword | src/intersystems_pyprod/_production_connector.py:714-717 | None exactly when every keyword names a field; otherwise a non-field keyword with every earlier keyword a field |
| Construction.PositionalBinding | src/intersystems_pyprod/_production_connector.py:706-712 | Positional argument i is bound to field i unless a keyword names that field |
| Construction.KeywordOverrides | src/intersystems_pyprod/_production_connector.py:714-718 | The last keyword for a field wins, also over a positional for it |
| Construction.BoundNames | src/intersystems_pyprod/_production_connector.py:705-718 | The bound names are exactly the first len(args) fields and the keyword names, all of them fields |
| Construction.DefaultOf | src/intersystems_pyprod/_production_connector.py:723-730 | A field's default is its `Column` default, else its plain class attribute, else `None` |
| Construction.ResolveFields | src/intersystems_pyprod/_production_connector.py:720-731 | Every declared field is set exactly once, nothing else: the supplied value if any, else its default |
| Construction.ApplyDecoded | src/intersystems_pyprod/_production_connector.py:686-696 | Exactly the declared fields present in the decoded payload are set, to the payload's values |
| Construction.FirstMissing | src/intersystems_pyprod/_production_connector.py:676-677 | None exactly when the wrapper has every column property; otherwise a column it lacks |
| Construction.ColumnFallback | src/intersystems_pyprod/_production_connector.py:675-678 | A missing column property raises an attribute error naming the first one. Otherwise each column whose wrapper value is not `""` is set over the given fields |
| Construction.ConstructionShapes | src/intersystems_pyprod/_production_connector.py:655-663 | Raises the wrapper/payload `TypeError` exactly when one of them is given without the other. Raises the mixed-arguments `TypeError` exactly when arguments come with both. Any success is fresh without wrapper and payload, or a rehydration without arguments |
| Construction.FreshConstruction | src/intersystems_pyprod/_production_connector.py:698-731 | A fresh message has exactly the declared fields, each the bound value or else its default |
| Construction.FreshConstructionErrors | src/intersystems_pyprod/_production_connector.py:698-718 | Fresh construction raises when the host has no class for the message, or on too many positionals, or on an unknown keyword; it succeeds otherwise |
| Construction.RehydrationTakesDeclaredFields | src/intersystems_pyprod/_production_connector.py:679-696 | Rehydrating from a dict or a decodable non-empty document sets exactly the declared fields the payload holds; extra keys are ignored, absent fields stay unset |
| Construction.EmptyPayloadFallback | src/intersystems_pyprod/_production_connector.py:672-678 | With the empty document, exactly the column fields whose wrapper value is not `""` are set, to the wrapper's values |
| Messages.ChunkSizeFitsHostStrings | src/intersystems_pyprod/_production_connector.py:812-814 | The 3 MiB chunk size is positive and below the host's longest string |
| Messages.Wrapper.New | src/intersystems_pyprod/_production_connector.py:699-703 | A new object of the generated class: its properties hold the initial values of that class (a parameter of the model, not fixed by the source), and its stream is empty |
| Messages.Stream.Write | src/intersystems_pyprod/_production_connector.py:856 | Appends a chunk no longer than the host's longest string |
| Messages.Message.Snapshot | src/intersystems_pyprod/_production_connector.py:950-955 | The pickled state is taken only while the wrapper slot holds `""` |
| Messages.Message.Init | src/intersystems_pyprod/_production_connector.py:646-735 | Fails exactly as the construction rules say, with the same exception. On success: a new message with the computed fields and the given serializer, bound to the given wrapper or to a new wrapper of the host class with that class's initial property values and an empty stream |
| Messages.Message.JsonInit | src/intersystems_pyprod/_production_connector.py:803-832 | A wrapper given without a payload has its stream pulled and passed on as the document, so it never raises the wrapper/payload error; otherwise as `Init`, including the new wrapper of the host class when none is given |
| Messages.Message.PickleInit | src/intersystems_pyprod/_production_connector.py:936-943 | Fresh construction with serializer `pickle` and the serial stream set to `""` (line 914), on a new wrapper of the host class |
| Messages.Message.ChunkFromJson | src/intersystems_pyprod/_production_connector.py:834-843 | Encodes the instance dictionary only on request 0; always returns the `[start:end]` slice of the cache; fields and wrapper unchanged |
| Messages.Message.ChunkFromPickle | src/intersystems_pyprod/_production_connector.py:945-959 | On request 0 pickles the object with the wrapper detached and restores the same wrapper; always returns the `[start:end]` slice |
| Messages.Message.CopyProperties | src/intersystems_pyprod/_production_connector.py:865-873 | Each property of the wrapper's class that the instance dictionary holds is set from it; other properties and the stream are unchanged |
| Messages.Message.WriteJsonChunks | src/intersystems_pyprod/_production_connector.py:850-859 | The loop stops at the first empty chunk. The new stream then holds exactly the JSON document of the instance dictionary, written in its 3 MiB chunks; fields and wrapper unchanged |
| Messages.Message.WritePickleChunks | src/intersystems_pyprod/_production_connector.py:962-973 | The same for the pickled state taken with the wrapper slot as `""` |
| Messages.Message.UpdateJson | src/intersystems_pyprod/_production_connector.py:849-863 | The wrapper gets a new stream holding exactly the JSON document, written in 3 MiB chunks. Properties are copied, the serial stream ends `""`, and the fields and wrapper are unchanged |
| Messages.Message.UpdatePickle | src/intersystems_pyprod/_production_connector.py:961-977 | The same for the pickled state, which records the wrapper slot as `""` |
| Messages.UnpickleBinary | src/intersystems_pyprod/_production_connector.py:876-901 | A non-empty stream is unpickled into a message bound to the given wrapper, with the unpickled type, fields, serializer and serial stream; a decoder failure fails. An empty stream gives a fresh `pickle` message with defaults plus the wrapper's non-empty column values and serial stream `""`. That message is on a new wrapper of the host class, with the class's initial properties and an empty stream, not the given one |
| Messages.JsonRoundTrip | src/intersystems_pyprod/_production_connector.py:834-843 | If the encoder round-trips the instance dictionary, rehydrating from the encoded document gives back all fields (declared fields, none named `_serializer`) |
| Messages.JsonThroughWrapper | src/intersystems_pyprod/_production_connector.py:849-863 | Updating the wrapper and then rebuilding from it gives the same fields, type and wrapper |
| Messages.PickleThroughWrapper | src/intersystems_pyprod/_production_connector.py:961-977 | Updating the wrapper by pickle and unpickling from it gives the same type, fields, serializer and serial stream, bound to the same wrapper |
| Dispatch.RouteOf | src/intersystems_pyprod/_production_connector.py:243-256 | Pass through exactly when the incoming key is unregistered; otherwise the registered class, unpickled exactly when it is a pickled class |
| Dispatch.RegisteredClassRoutes | src/intersystems_pyprod/_production_connector.py:246-256 | An object of the IRIS class generated for a registered message class is routed to that class |
| Dispatch.UnregisteredPassesThrough | src/intersystems_pyprod/_production_connector.py:250-252 | An object of an unregistered class is returned unchanged |
| Dispatch.CreateMessage | src/intersystems_pyprod/_production_connector.py:243-260 | Unregistered: the same object. A plain message class raises the wrapper/payload error. A JSON class is rebuilt on the same wrapper from its stream, with serializer `json` and serial stream `""`. For a pickled class, a non-empty stream is unpickled onto the same wrapper, keeping the unpickled serializer and serial stream. An empty one gives a new `pickle` message with defaults and the wrapper's non-empty columns, on a new wrapper of the host class with its initial properties and an empty stream |
| Dispatch.RequestToSend | src/intersystems_pyprod/_production_connector.py:262-269 | `""` stays `""`, other values and host objects pass unchanged. A message is replaced by its own wrapper, refreshed by its class's update: a new stream holding the JSON or pickle document in 3 MiB chunks, the properties copied, and the serial stream left `""`; nothing for a plain message |
| Replies.ShapeReply | src/intersystems_pyprod/_production_connector.py:303-316 | A bare status gives availability 0 and no response. A pair gives the status, the converted response and availability 1. A sequence of any other length fails to unpack. Response present exactly when available is 1. The same shaping is repeated in `OnRequestHelper` (371-383), `OnResponseHelper` (405-414), `OnMessageHelper` (471-482) and `AnyMethodHelper` (487-496) |
| Scenarios.AllPyJsonSchema | tests/helpers/AllPyComponents/AllPyComponents.py:18-20 | `MyJsonData` has names and columns `[name, amount]` |
| Scenarios.AllPyJsonDefaults | tests/helpers/AllPyComponents/AllPyComponents.py:18-20 | `MyJsonData()` takes the `Column` defaults `"default name"` and `0` |
| Scenarios.AllPyJsonPositional | tests/helpers/AllPyComponents/AllPyComponents.py:39 | Two positionals bind `name` and `amount` in order |
| Scenarios.KeywordOverridesPositional | src/intersystems_pyprod/_production_connector.py:714-718 | `MyJsonData("a", name="b")` has `name == "b"` and `amount` at its default |
| Scenarios.TooManyPositionals | tests/helpers/AllPyComponents/AllPyComponents.py:22-24 | Three positionals for the two fields of `MyPickleData` raise with counts 2 and 3 |
| Scenarios.SimpleMsgSchema | tests/helpers/OsPyMixed/TCPAdaptersFromOs/TCPAdaptersFromOs.py:7-8 | An annotation-only field is a field and not a column |
| Scenarios.SimpleMsgFreshDefault | tests/helpers/OsPyMixed/TCPAdaptersFromOs/TCPAdaptersFromOs.py:7-8 | `simplemsg()` sets `value` to `None` |
| Scenarios.SimpleMsgUnknownKeyword | src/intersystems_pyprod/_production_connector.py:714-717 | An unknown keyword raises, naming it |
| Scenarios.QuickStartPickleRoutes | tests/helpers/QuickStart.py:101 | An IRIS `MyPickleData` object in module `iris.QuickStart` is routed to the registered pickled class |

## Left out

- An IRIS wrapper object is taken to be truthy. The test `(args or kwargs) and (iris_message_object or json_str_or_dict)` at line 660 is therefore modelled as "arguments given and a wrapper given". A wrapper that Python judged false would let arguments and a payload through together.
- Host calls are foreign code: `iris.ref`, `SendRequestSync`/`SendRequestAsync`, `BusinessHost_ProcessInput`, `ClassDefinition._OpenId` and `_SYS.Python.Bytes`. The property list `_OpenId` yields is the wrapper class's `propertyNames`, and the bytes conversion is the identity.
- `chunksFromIRIS` is host code. Its reply to request i is taken to be the i-th chunk-size segment of the wrapper's stream.
- `json` and `pickle` are library code. They are functions of a `Codec`, and their round trip is only a lemma hypothesis. JSON text and pickle bytes are both sequences of characters.
- Messages.Message.ChunkFromPickle: the encoders are assumed total. In Python, `pickle.dumps` at lines 950-957 runs after the wrapper slot is set to `""`, with no `try`/`finally`. If it raises (a field value that cannot be pickled), the slot stays `""`, and the next `request_to_send` fails when it assigns `SerializedStream`. This failure is not modelled, so `ChunkFromPickle`, `WritePickleChunks` and `UpdatePickle` always give the wrapper back.
- Messages.Message.ChunkFromJson: likewise, `json.dumps` raising `TypeError` on a value that is not JSON-serialisable is not modelled. That error would leave `request_to_send` and is outside the model's `Result`s.
- Construction.BindArguments: `__init__` names the parameters `iris_message_object`, `json_str_or_dict` and `serializer` itself (lines 646-653), so Python never passes keywords with those names into `**kwargs`. The model's keyword list does not exclude them: a message field with one of those names could be bound by keyword in the model but not in Python.
- `inspect.getsource`/`ast.parse` reflect on source text. Their result, the parsed statement list, is an input, and so are the class attributes.
- The `Column` flags other than `default` (`index`, `datatype`, `description`) do not affect the message layer.
- Out of scope: `IRISLog`, `debug_host`, `Status`, the `IRISProperty`/`IRISParameter` descriptors, `__repr__`, and the accessors `fullname`, `OKStatus`, `ErrorStatus` and `iris_message_object`.
- The rehydrate branch of `PickleSerialize.__init__` (lines 915-934) returns an object from `__init__`, which Python rejects. Rehydration of pickled messages goes through `unpickle_binary`.
- `unpickle_binary` with a `None` wrapper leaves its result unassigned. The model's wrapper parameter is non-null.
- The `is not ""` identity tests (lines 677, 899) are modelled as value inequality.
- The `except KeyError` at lines 258-259 is not modelled. The registry lookup cannot raise it after the membership test at line 250. A `KeyError` from inside the host or the decoder is outside the model, like their other failures.
- `_createmessage` takes host objects only. A plain Python response, whose key would start with `ins.` (module `builtins`), is assumed unregistered.
- `OnRequestHelper`, `OnResponseHelper`, `OnMessageHelper` and `AnyMethodHelper` call `_createmessage` on their inputs and then the user handler. `OnProcessInputHelper` (lines 303-306) passes its input to `OnProcessInput` unchanged, without `_createmessage`. In every case the handler's result is the input of `Replies.ShapeReply`. `OnProcessInputHelper` names the response keys `pOutput`/`pOutput_available`, which the model does not distinguish.
- Messages.Message.JsonInit: fixes `serializer` to its default `"json"`. The encoder is the JSON codec rather than the module that `_serializer` names.
- Messages.Message.Init: the `_serial_stream` slot of a JSON message starts unset in Python and is modelled as `""`. It is only read after the first encode.
- Replies.ShapeReply: for a message response, states which wrapper is handed back. The refreshed stream and properties are stated by `Dispatch.RequestToSend`, which it calls.
