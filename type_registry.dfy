/**
 * The two process-wide registries filled when a class is defined: one for
 * business hosts (`_BaseClass_registry`) and one for message classes
 * (`_ProductionMessage_registry`), both keyed by `package.ClassName`.
 */
module TypeRegistry {
  import opened Wrappers
  import opened PyValues
  import opened FieldOrder
  import opened QualifiedNames

  /** Which base a message class derives from, which fixes its wire encoding. */
  datatype Strategy = JsonStrategy | PickleStrategy | PlainMessage

  /** What the message layer reads off a message class object. */
  datatype MessageType = MessageType(
    className: string,
    package: string,
    fullName: string,
    strategy: Strategy,
    fieldNames: seq<string>,
    columnNames: seq<string>,
    classAttrs: map<string, Value>)   // getattr(cls, name) for the names the class defines

  /** A message class statement as the interpreter sees it when `__init_subclass__` runs. */
  datatype MessageClassDecl = MessageClassDecl(
    className: string,
    moduleName: string,
    classPackage: Option<string>,     // class attribute `package_name`, if any
    modulePackage: Option<string>,    // module attribute `package_name`, if any
    parsedSource: seq<Stmt>,          // ast.parse(inspect.getsource(cls)).body
    strategy: Strategy,
    classAttrs: map<string, Value>)

  datatype HostKind = BusinessService | BusinessProcess | BusinessOperation | InboundAdapter | OutboundAdapter

  datatype HostType = HostType(className: string, package: string, fullName: string, kind: HostKind)

  datatype HostClassDecl = HostClassDecl(
    className: string,
    moduleName: string,
    classPackage: Option<string>,
    modulePackage: Option<string>,
    kind: HostKind)

  /** A registry: a dictionary from qualified name to class. */
  class Registry<T> {
    var entries: map<string, T>

    constructor ()
      ensures entries == map[]
    {
      entries := map[];
    }

    function Lookup(key: string): (r: Option<T>)
      reads this
      ensures r.Some? <==> key in entries
      ensures r.Some? ==> r.value == entries[key]
    {
      if key in entries then Some(entries[key]) else None
    }

    /** A plain dictionary store: an entry already under `key` is replaced without notice. */
    method Register(key: string, value: T)
      modifies this
      ensures entries == old(entries)[key := value]
      ensures Lookup(key) == Some(value)
      ensures forall k :: k != key ==> Lookup(k) == old(Lookup(k))
    {
      entries := entries[key := value];
    }
  }

  /**
   * `ProductionMessage.__init_subclass__`: resolve the package, form the key,
   * extract the field order, then store the class under the key. A class whose
   * body cannot be located raises before anything is stored.
   */
  method DefineMessageClass(registry: Registry<MessageType>, decl: MessageClassDecl) returns (r: Result<MessageType, Error>)
    modifies registry
    ensures r.Failure? <==> FindClassBody(decl.parsedSource, decl.className).None?
    ensures r.Failure? ==> r.error == ClassBodyNotFound(decl.className) && registry.entries == old(registry.entries)
    ensures r.Success? ==>
              var pkg := ResolvePackage(decl.classPackage, decl.modulePackage, decl.moduleName);
              var schema := SchemaOf(FindClassBody(decl.parsedSource, decl.className).value);
              && r.value == MessageType(decl.className, pkg, QualifiedName(pkg, decl.className), decl.strategy,
                                        schema.fieldNames, schema.columnNames, decl.classAttrs)
              && registry.entries == old(registry.entries)[QualifiedName(pkg, decl.className) := r.value]
  {
    var pkg := ResolvePackage(decl.classPackage, decl.modulePackage, decl.moduleName);
    var fullName := QualifiedName(pkg, decl.className);
    var schema := ExtractFieldOrder(decl.parsedSource, decl.className);
    if schema.Failure? {
      return Failure(schema.error);
    }
    var t := MessageType(decl.className, pkg, fullName, decl.strategy,
                         schema.value.fieldNames, schema.value.columnNames, decl.classAttrs);
    registry.Register(fullName, t);
    r := Success(t);
  }

  /** `BaseClass.__init_subclass__`: the same package resolution and keying, without fields. */
  method DefineHostClass(registry: Registry<HostType>, decl: HostClassDecl) returns (t: HostType)
    modifies registry
    ensures t.package == ResolvePackage(decl.classPackage, decl.modulePackage, decl.moduleName)
    ensures t == HostType(decl.className, t.package, QualifiedName(t.package, decl.className), decl.kind)
    ensures registry.entries == old(registry.entries)[t.fullName := t]
  {
    var pkg := ResolvePackage(decl.classPackage, decl.modulePackage, decl.moduleName);
    t := HostType(decl.className, pkg, QualifiedName(pkg, decl.className), decl.kind);
    registry.Register(t.fullName, t);
  }

  /**
   * Two classes of the same name in different packages get different keys, so
   * registering both keeps both retrievable.
   */
  lemma SameNameDifferentPackages<T>(entries: map<string, T>, className: string, p1: string, p2: string, t1: T, t2: T)
    requires '.' !in className
    requires p1 != p2
    ensures var m := entries[QualifiedName(p1, className) := t1][QualifiedName(p2, className) := t2];
            m[QualifiedName(p1, className)] == t1 && m[QualifiedName(p2, className)] == t2
  {
    if QualifiedName(p1, className) == QualifiedName(p2, className) {
      QualifiedNameInjective(p1, className, p2, className);
    }
  }

  /**
   * Defining class `A` in package `P1` and again in package `P2`: both
   * lookups succeed afterwards, each yielding the class of its own package.
   */
  method TwoPackagesScenario(classAttrs: map<string, Value>) returns (found1: Option<MessageType>, found2: Option<MessageType>)
    ensures found1 == Some(MessageType("A", "P1", "P1.A", JsonStrategy, ["x"], [], classAttrs))
    ensures found2 == Some(MessageType("A", "P2", "P2.A", JsonStrategy, ["x"], [], classAttrs))
  {
    var registry := new Registry<MessageType>();
    var body := [ClassDef("A", [AnnAssign(NameTarget("x"), Name("int"), None)])];
    var inner: seq<Stmt> := [AnnAssign(NameTarget("x"), Name("int"), None)];
    assert inner[..0] == [];
    assert SchemaOf(inner) == Schema(["x"], []);
    var a1 := DefineMessageClass(registry, MessageClassDecl("A", "m1", Some("P1"), None, body, JsonStrategy, classAttrs));
    var a2 := DefineMessageClass(registry, MessageClassDecl("A", "m2", Some("P2"), None, body, JsonStrategy, classAttrs));
    assert QualifiedName("P1", "A") == "P1.A" && QualifiedName("P2", "A") == "P2.A";
    assert "P1.A" != "P2.A";
    found1 := registry.Lookup("P1.A");
    found2 := registry.Lookup("P2.A");
  }
}
