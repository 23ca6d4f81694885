/**
 * The message classes of the example productions, run through the model:
 * their field lists, fresh construction with defaults, positionals and
 * keywords, and the routing of their IRIS objects.
 */
module Scenarios {
  import opened Wrappers
  import opened PyValues
  import opened FieldOrder
  import opened QualifiedNames
  import opened TypeRegistry
  import opened Construction
  import opened Messages
  import opened Dispatch

  /** `MyJsonData` of the AllPyComponents production: two `Column` fields with defaults. */
  const AllPyJsonBody: seq<Stmt> := [
    Assign([NameTarget("name")], Call(Name("Column"))),
    Assign([NameTarget("amount")], Call(Name("Column")))
  ]

  function AllPyJsonType(): MessageType {
    MessageType("MyJsonData", "AllPyComponents", "AllPyComponents.MyJsonData", JsonStrategy,
                ["name", "amount"], ["name", "amount"],
                map["name" := ColumnObj(Str("default name")), "amount" := ColumnObj(Int(0))])
  }

  /** `MyPickleData`: a `Column` field and a plain class attribute. */
  function PickleDataType(pkg: string): MessageType {
    MessageType("MyPickleData", pkg, QualifiedName(pkg, "MyPickleData"), PickleStrategy,
                ["name", "amount"], ["name"],
                map["name" := ColumnObj(NoneV), "amount" := Int(1)])
  }

  /** `simplemsg` of the TCP adapters production: one annotation-only field. */
  const SimpleMsgBody: seq<Stmt> := [AnnAssign(NameTarget("value"), Name("str"), None)]

  function SimpleMsgType(): MessageType {
    MessageType("simplemsg", "TCPAdaptersFromOs", "TCPAdaptersFromOs.simplemsg", JsonStrategy,
                ["value"], [], map[])
  }

  lemma AllPyJsonSchema()
    ensures SchemaOf(AllPyJsonBody) == Schema(["name", "amount"], ["name", "amount"])
  {
    assert BodyDecls(AllPyJsonBody) == [Decl("name", true), Decl("amount", true)] by {
      assert AllPyJsonBody[..1] == [AllPyJsonBody[0]];
    }
  }

  lemma SimpleMsgSchema()
    ensures SchemaOf(SimpleMsgBody) == Schema(["value"], [])
  {
    assert SimpleMsgBody[..0] == [];
  }

  /** `MyJsonData()` takes both `Column` defaults. */
  lemma AllPyJsonDefaults()
    ensures InitSpec(AllPyJsonType(), [], [], false, map[], None, "json", NoDecoder, true)
              == Success(map["name" := Str("default name"), "amount" := Int(0)])
  {
    var t := AllPyJsonType();
    var f := FreshFields(t, map[]);
    assert BindSpec(t.fieldNames, [], []) == Success(map[]);
    assert "name" in t.fieldNames && "amount" in t.fieldNames;
    assert f.Keys == {"name", "amount"};
    assert f["name"] == Str("default name") && f["amount"] == Int(0);
    assert f == map["name" := Str("default name"), "amount" := Int(0)];
  }

  /** `MyJsonData("MyJsonData request from BP to BO", 1)` binds both fields by position. */
  lemma AllPyJsonPositional()
    ensures InitSpec(AllPyJsonType(), [Str("MyJsonData request from BP to BO"), Int(1)], [], false, map[], None,
                     "json", NoDecoder, true)
              == Success(map["name" := Str("MyJsonData request from BP to BO"), "amount" := Int(1)])
  {
    var t := AllPyJsonType();
    var args := [Str("MyJsonData request from BP to BO"), Int(1)];
    assert args[..1] == [args[0]];
    var values := map["name" := args[0], "amount" := args[1]];
    assert Positional(t.fieldNames, args) == values;
    var f := FreshFields(t, values);
    assert "name" in t.fieldNames && "amount" in t.fieldNames;
    assert f.Keys == {"name", "amount"};
    assert f["name"] == args[0] && f["amount"] == args[1];
    assert f == values;
  }

  /** `MyJsonData("a", name="b")`: the keyword overrides the positional, `amount` takes its default. */
  lemma KeywordOverridesPositional()
    ensures InitSpec(AllPyJsonType(), [Str("a")], [("name", Str("b"))], false, map[], None, "json", NoDecoder, true)
              == Success(map["name" := Str("b"), "amount" := Int(0)])
  {
    var t := AllPyJsonType();
    var kwargs := [("name", Str("b"))];
    assert kwargs[..0] == [];
    assert [Str("a")][..0] == [];
    assert Positional(t.fieldNames, [Str("a")]) == map["name" := Str("a")];
    assert FirstUnknownKeyword(t.fieldNames, kwargs) == None by {
      assert kwargs[0].0 in t.fieldNames;
    }
    assert WithKeywords(map["name" := Str("a")], kwargs) == map["name" := Str("b")];
    var f := FreshFields(t, map["name" := Str("b")]);
    assert "name" in t.fieldNames && "amount" in t.fieldNames;
    assert f.Keys == {"name", "amount"};
    assert f["name"] == Str("b") && f["amount"] == Int(0);
    assert f == map["name" := Str("b"), "amount" := Int(0)];
  }

  /** `MyPickleData("a", 1, 2)` raises: at most two positionals. */
  lemma TooManyPositionals(pkg: string)
    ensures InitSpec(PickleDataType(pkg), [Str("a"), Int(1), Int(2)], [], false, map[], None, "pickle", NoDecoder, true)
              == Failure(TooManyPositional(2, 3))
  {
  }

  /** `simplemsg()` sets its annotation-only field to `None`. */
  lemma SimpleMsgFreshDefault()
    ensures InitSpec(SimpleMsgType(), [], [], false, map[], None, "json", NoDecoder, true) == Success(map["value" := NoneV])
  {
    var t := SimpleMsgType();
    var f := FreshFields(t, map[]);
    assert "value" in t.fieldNames;
    assert f.Keys == {"value"};
    assert f["value"] == NoneV;
    assert f == map["value" := NoneV];
  }

  /** `simplemsg(text="x")` raises: `text` is not a field. */
  lemma SimpleMsgUnknownKeyword()
    ensures InitSpec(SimpleMsgType(), [], [("text", Str("x"))], false, map[], None, "json", NoDecoder, true)
              == Failure(UnexpectedKeyword("text"))
  {
    var kwargs := [("text", Str("x"))];
    assert kwargs[..0] == [];
  }

  /**
   * The QuickStart production names its package only through a variable that
   * is not looked at, so `MyPickleData` is keyed by its module's name; an IRIS
   * object of class `MyPickleData` in module `iris.QuickStart` is unpickled.
   */
  lemma QuickStartPickleRoutes(moduleName: string, propertyNames: seq<string>, initialProps: map<string, Value>)
    requires moduleName == "QuickStart"
    ensures var pkg := ResolvePackage(None, None, moduleName);
            var t := PickleDataType(pkg);
            RouteOf(map[t.fullName := t], IrisClass("iris." + moduleName, "MyPickleData", propertyNames, initialProps))
              == Unpickle(t)
  {
    LastComponentOfDotless(moduleName);
    var t := PickleDataType(moduleName);
    RegisteredClassRoutes(map[t.fullName := t], t, propertyNames, initialProps);
  }
}
