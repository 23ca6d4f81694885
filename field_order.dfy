/**
 * The field-order extractor of a message class: from the parsed top-level
 * statements of a class body, the ordered list of field names and the ordered
 * sub-list of those declared with a bare `Column(...)` call.
 *
 * The parse tree is an input (`ast.parse` of the class source is not modelled).
 */
module FieldOrder {
  import opened Wrappers
  import opened PyValues

  /** The expression forms the extractor distinguishes. */
  datatype Expr =
    | Name(id: string)
    | Attribute(obj: Expr, attr: string)
    | Call(func: Expr)
    | Literal(v: Value)
    | OtherExpr

  /** Assignment targets: only a bare name declares a field. */
  datatype Target =
    | NameTarget(id: string)
    | TupleTarget(elts: seq<Target>)
    | AttributeTarget(obj: Expr, attr: string)
    | SubscriptTarget(obj: Expr)

  /** Top-level statements of a module or class body. */
  datatype Stmt =
    | AnnAssign(target: Target, annotation: Expr, value: Option<Expr>)   // x: T   /   x: T = v
    | Assign(targets: seq<Target>, rhs: Expr)                            // x = v  /   x = y = v
    | FunctionDef(name: string, body: seq<Stmt>)
    | ClassDef(name: string, body: seq<Stmt>)
    | OtherStmt

  /** The result of extraction: all field names, and the column fields among them. */
  datatype Schema = Schema(fieldNames: seq<string>, columnNames: seq<string>)

  /** A call whose callee is the bare name `Column`; `mod.Column(...)` does not qualify. */
  predicate IsColumnCall(e: Expr) {
    e.Call? && e.func.Name? && e.func.id == "Column"
  }

  /** One name declaration met while walking the body, in walking order. */
  datatype Decl = Decl(name: string, isColumn: bool)

  // ---------------------------------------------------------------------------
  // Reference view: the flat list of declarations, and "first declaration" of a name

  function TargetDecls(targets: seq<Target>, isColumn: bool): seq<Decl> {
    if |targets| == 0 then []
    else
      var t := targets[|targets| - 1];
      TargetDecls(targets[..|targets| - 1], isColumn)
        + (if t.NameTarget? then [Decl(t.id, isColumn)] else [])
  }

  function StmtDecls(s: Stmt): seq<Decl> {
    match s
    case AnnAssign(NameTarget(n), _, v) => [Decl(n, v.Some? && IsColumnCall(v.value))]
    case Assign(targets, v) => TargetDecls(targets, IsColumnCall(v))
    case _ => []
  }

  /** Every declaration of the body, in source order (repetitions included). */
  function BodyDecls(body: seq<Stmt>): seq<Decl> {
    if |body| == 0 then [] else BodyDecls(body[..|body| - 1]) + StmtDecls(body[|body| - 1])
  }

  ghost predicate Declared(ds: seq<Decl>, n: string) {
    exists k :: 0 <= k < |ds| && ds[k].name == n
  }

  /** Position of the first declaration of `n`, or `|ds|` when there is none. */
  function FirstIndex(ds: seq<Decl>, n: string): (k: nat)
    ensures k <= |ds|
    ensures k < |ds| ==> ds[k].name == n
    ensures forall j :: 0 <= j < k ==> ds[j].name != n
  {
    if |ds| == 0 then 0 else if ds[0].name == n then 0 else 1 + FirstIndex(ds[1..], n)
  }

  /** The first declaration of `n` is a bare `Column(...)` call. */
  predicate FirstIsColumn(ds: seq<Decl>, n: string) {
    FirstIndex(ds, n) < |ds| && ds[FirstIndex(ds, n)].isColumn
  }

  /** The names of `names` whose first declaration is a column, in the order of `names`. */
  function ColumnFilter(names: seq<string>, ds: seq<Decl>): seq<string> {
    if |names| == 0 then []
    else
      var n := names[|names| - 1];
      ColumnFilter(names[..|names| - 1], ds) + (if FirstIsColumn(ds, n) then [n] else [])
  }

  predicate NoDuplicates(s: seq<string>) {
    forall i, j :: 0 <= i < j < |s| ==> s[i] != s[j]
  }

  /** `sub` is `s` with some elements left out, the rest kept in their original order. */
  predicate IsSubsequence(sub: seq<string>, s: seq<string>) {
    if |sub| == 0 then true
    else if |s| == 0 then false
    else (sub[|sub| - 1] == s[|s| - 1] && IsSubsequence(sub[..|sub| - 1], s[..|s| - 1]))
         || IsSubsequence(sub, s[..|s| - 1])
  }

  // ---------------------------------------------------------------------------
  // The extractor's own state: `names`, `columns`, `seen`

  datatype Acc = Acc(names: seq<string>, columns: seq<string>, seen: set<string>)

  const Start := Acc([], [], {})

  /** One declaration met by the walk: only a name not yet seen is recorded. */
  function AddDecl(acc: Acc, d: Decl): Acc {
    if d.name in acc.seen then acc
    else Acc(acc.names + [d.name],
             if d.isColumn then acc.columns + [d.name] else acc.columns,
             acc.seen + {d.name})
  }

  /** The walk's state after meeting `ds` in order, starting from `acc`. */
  function Absorb(acc: Acc, ds: seq<Decl>): Acc {
    if |ds| == 0 then acc else AddDecl(Absorb(acc, ds[..|ds| - 1]), ds[|ds| - 1])
  }

  /** The extractor's result for a located class body. */
  function SchemaOf(body: seq<Stmt>): Schema {
    var acc := Absorb(Start, BodyDecls(body));
    Schema(acc.names, acc.columns)
  }

  /** What the walk state means with respect to the declarations met so far. */
  ghost predicate Meaning(acc: Acc, ds: seq<Decl>) {
    && NoDuplicates(acc.names)
    && (forall n :: n in acc.seen <==> n in acc.names)
    && (forall n :: n in acc.names <==> FirstIndex(ds, n) < |ds|)
    && (forall i, j :: 0 <= i < j < |acc.names| ==>
          FirstIndex(ds, acc.names[i]) < FirstIndex(ds, acc.names[j]))
    && acc.columns == ColumnFilter(acc.names, ds)
  }

  lemma {:induction false} FirstIndexOfDeclared(ds: seq<Decl>, n: string)
    ensures Declared(ds, n) <==> FirstIndex(ds, n) < |ds|
  {
    if Declared(ds, n) {
      var k :| 0 <= k < |ds| && ds[k].name == n;
      assert FirstIndex(ds, n) <= k;
    }
  }

  lemma {:induction false} FirstIndexAppend(ds: seq<Decl>, d: Decl, n: string)
    ensures FirstIndex(ds, n) < |ds| ==> FirstIndex(ds + [d], n) == FirstIndex(ds, n)
    ensures FirstIndex(ds, n) == |ds| && d.name == n ==> FirstIndex(ds + [d], n) == |ds|
    ensures FirstIndex(ds, n) == |ds| && d.name != n ==> FirstIndex(ds + [d], n) == |ds| + 1
  {
    if |ds| > 0 && ds[0].name != n {
      assert (ds + [d])[1..] == ds[1..] + [d];
      FirstIndexAppend(ds[1..], d, n);
    }
  }

  lemma {:induction false} ColumnFilterAppend(names: seq<string>, ds: seq<Decl>, d: Decl)
    requires forall n :: n in names ==> FirstIndex(ds, n) < |ds|
    ensures ColumnFilter(names, ds + [d]) == ColumnFilter(names, ds)
  {
    if |names| > 0 {
      var n := names[|names| - 1];
      assert n in names;
      FirstIndexAppend(ds, d, n);
      ColumnFilterAppend(names[..|names| - 1], ds, d);
    }
  }

  lemma {:induction false} ColumnFilterSnoc(names: seq<string>, n: string, ds: seq<Decl>)
    ensures ColumnFilter(names + [n], ds)
         == ColumnFilter(names, ds) + (if FirstIsColumn(ds, n) then [n] else [])
  {
    assert (names + [n])[..|names|] == names;
  }

  lemma BodyDeclsStep(body: seq<Stmt>, i: nat)
    requires i < |body|
    ensures BodyDecls(body[..i + 1]) == BodyDecls(body[..i]) + StmtDecls(body[i])
  {
    assert body[..i + 1][..i] == body[..i];
  }

  lemma TargetDeclsStep(targets: seq<Target>, j: nat, isColumn: bool)
    requires j < |targets|
    ensures TargetDecls(targets[..j + 1], isColumn)
         == TargetDecls(targets[..j], isColumn)
            + (if targets[j].NameTarget? then [Decl(targets[j].id, isColumn)] else [])
  {
    assert targets[..j + 1][..j] == targets[..j];
  }

  lemma {:induction false} AbsorbConcat(acc: Acc, a: seq<Decl>, b: seq<Decl>)
    ensures Absorb(acc, a + b) == Absorb(Absorb(acc, a), b)
  {
    if |b| == 0 {
      assert a + b == a;
    } else {
      var pre, last := b[..|b| - 1], b[|b| - 1];
      assert a + b == (a + pre) + [last];
      AbsorbConcat(acc, a, pre);
      AbsorbSnoc(acc, a + pre, last);
      AbsorbSnoc(Absorb(acc, a), pre, last);
      assert pre + [last] == b;
    }
  }

  lemma AbsorbSnoc(acc: Acc, ds: seq<Decl>, d: Decl)
    ensures Absorb(acc, ds + [d]) == AddDecl(Absorb(acc, ds), d)
  {
    assert (ds + [d])[..|ds|] == ds;
  }

  lemma SeenDeclKeepsMeaning(acc: Acc, ds: seq<Decl>, d: Decl)
    requires Meaning(acc, ds)
    requires d.name in acc.seen
    ensures Meaning(acc, ds + [d])
  {
    var ds' := ds + [d];
    assert FirstIndex(ds, d.name) < |ds|;
    forall n | n in acc.names ensures FirstIndex(ds, n) < |ds| && FirstIndex(ds', n) == FirstIndex(ds, n) {
      FirstIndexOfDeclared(ds, n);
      FirstIndexAppend(ds, d, n);
    }
    forall n ensures FirstIndex(ds', n) < |ds'| <==> FirstIndex(ds, n) < |ds| {
      FirstIndexAppend(ds, d, n);
    }
    ColumnFilterAppend(acc.names, ds, d);
  }

  /** A new name is declared after every name already recorded. */
  lemma NewDeclComesLast(acc: Acc, ds: seq<Decl>, d: Decl)
    requires Meaning(acc, ds)
    requires d.name !in acc.seen
    ensures forall i, j :: 0 <= i < j < |acc.names| + 1 ==>
              FirstIndex(ds + [d], (acc.names + [d.name])[i]) < FirstIndex(ds + [d], (acc.names + [d.name])[j])
  {
    var ds', names' := ds + [d], acc.names + [d.name];
    FirstIndexAppend(ds, d, d.name);
    forall i | 0 <= i < |acc.names| ensures FirstIndex(ds', names'[i]) == FirstIndex(ds, acc.names[i]) < |ds| {
      assert names'[i] == acc.names[i] && acc.names[i] in acc.names;
      FirstIndexAppend(ds, d, acc.names[i]);
    }
    assert FirstIndex(ds', names'[|acc.names|]) == |ds|;
  }

  /** Appending a name not yet present keeps a list free of duplicates. */
  lemma NewNameNoDuplicates(names: seq<string>, n: string)
    requires NoDuplicates(names) && n !in names
    ensures NoDuplicates(names + [n])
  {
    var names' := names + [n];
    forall i, j | 0 <= i < j < |names'| ensures names'[i] != names'[j] {
      assert names'[i] == names[i] && names[i] in names;
      if j < |names| {
        assert names'[j] == names[j];
      }
    }
  }

  /** The first declaration of a new name is the one just met, so the column filter gains it exactly when it is a column. */
  lemma NewDeclColumns(names: seq<string>, ds: seq<Decl>, d: Decl)
    requires forall n :: n in names ==> FirstIndex(ds, n) < |ds|
    requires FirstIndex(ds, d.name) == |ds|
    ensures ColumnFilter(names + [d.name], ds + [d])
         == ColumnFilter(names, ds) + (if d.isColumn then [d.name] else [])
  {
    var ds' := ds + [d];
    ColumnFilterAppend(names, ds, d);
    FirstIndexAppend(ds, d, d.name);
    assert ds'[|ds|] == d;
    ColumnFilterSnoc(names, d.name, ds');
  }

  lemma NewDeclKeepsMeaning(acc: Acc, ds: seq<Decl>, d: Decl)
    requires Meaning(acc, ds)
    requires d.name !in acc.seen
    ensures Meaning(AddDecl(acc, d), ds + [d])
  {
    var acc' := AddDecl(acc, d);
    assert acc'.names == acc.names + [d.name] && acc'.seen == acc.seen + {d.name};
    assert acc'.columns == acc.columns + (if d.isColumn then [d.name] else []);
    NewNameNoDuplicates(acc.names, d.name);
    NewDeclDeclared(acc.names, ds, d);
    NewDeclComesLast(acc, ds, d);
    NewDeclColumns(acc.names, ds, d);
  }

  /** The recorded names are still exactly the declared ones once the new name is recorded. */
  lemma NewDeclDeclared(names: seq<string>, ds: seq<Decl>, d: Decl)
    requires forall n :: n in names <==> FirstIndex(ds, n) < |ds|
    ensures forall n :: n in names + [d.name] <==> FirstIndex(ds + [d], n) < |ds + [d]|
  {
    forall n ensures n in names + [d.name] <==> FirstIndex(ds + [d], n) < |ds + [d]| {
      FirstIndexAppend(ds, d, n);
    }
  }

  lemma AddDeclKeepsMeaning(acc: Acc, ds: seq<Decl>, d: Decl)
    requires Meaning(acc, ds)
    ensures Meaning(AddDecl(acc, d), ds + [d])
  {
    if d.name in acc.seen {
      SeenDeclKeepsMeaning(acc, ds, d);
    } else {
      NewDeclKeepsMeaning(acc, ds, d);
    }
  }

  lemma {:induction false} AbsorbMeaning(ds: seq<Decl>)
    ensures Meaning(Absorb(Start, ds), ds)
  {
    if |ds| == 0 {
    } else {
      var pre, last := ds[..|ds| - 1], ds[|ds| - 1];
      assert pre + [last] == ds;
      AbsorbMeaning(pre);
      AddDeclKeepsMeaning(Absorb(Start, pre), pre, last);
    }
  }

  lemma {:induction false} ColumnFilterMembers(names: seq<string>, ds: seq<Decl>)
    ensures forall n :: n in ColumnFilter(names, ds) <==> n in names && FirstIsColumn(ds, n)
  {
    if |names| > 0 {
      var pre := names[..|names| - 1];
      ColumnFilterMembers(pre, ds);
      assert names == pre + [names[|names| - 1]];
    }
  }

  lemma {:induction false} ColumnFilterIsSubsequence(names: seq<string>, ds: seq<Decl>)
    ensures IsSubsequence(ColumnFilter(names, ds), names)
  {
    if |names| > 0 {
      var pre, n := names[..|names| - 1], names[|names| - 1];
      ColumnFilterIsSubsequence(pre, ds);
      var cs := ColumnFilter(names, ds);
      if FirstIsColumn(ds, n) {
        assert cs == ColumnFilter(pre, ds) + [n];
        assert cs[..|cs| - 1] == ColumnFilter(pre, ds) && cs[|cs| - 1] == n;
      } else {
        assert cs == ColumnFilter(pre, ds);
        assert IsSubsequence(cs, names[..|names| - 1]);
      }
    }
  }

  // ---------------------------------------------------------------------------
  // Locating the class and walking its body

  /** The body of the first top-level class definition named `className`. */
  function FindClassBody(module_: seq<Stmt>, className: string): (r: Option<seq<Stmt>>)
    ensures r.None? <==> forall k :: 0 <= k < |module_| ==> !(module_[k].ClassDef? && module_[k].name == className)
    ensures r.Some? ==> exists k :: 0 <= k < |module_| && module_[k] == ClassDef(className, r.value)
                         && forall j :: 0 <= j < k ==> !(module_[j].ClassDef? && module_[j].name == className)
  {
    if |module_| == 0 then None
    else if module_[0].ClassDef? && module_[0].name == className then Some(module_[0].body)
    else
      var r := FindClassBody(module_[1..], className);
      assert r.Some? ==> exists k :: 0 <= k < |module_[1..]| && module_[1..][k] == ClassDef(className, r.value)
                                     && forall j :: 0 <= j < k ==> !(module_[1..][j].ClassDef? && module_[1..][j].name == className);
      r
  }

  /**
   * The extractor: walks the top-level statements of the class body once,
   * keeping the first declaration of every name.
   */
  method ExtractFieldOrder(parsedSource: seq<Stmt>, className: string) returns (r: Result<Schema, Error>)
    ensures FindClassBody(parsedSource, className).None? <==> r.Failure?
    ensures r.Failure? ==> r.error == ClassBodyNotFound(className)
    ensures r.Success? ==> r.value == SchemaOf(FindClassBody(parsedSource, className).value)
    ensures r.Success? ==> ValidSchema(r.value, BodyDecls(FindClassBody(parsedSource, className).value))
  {
    var target := FindClassBody(parsedSource, className);
    if target.None? {
      return Failure(ClassBodyNotFound(className));
    }
    var body := target.value;
    var names: seq<string>, columns: seq<string>, seen: set<string> := [], [], {};
    var i := 0;
    while i < |body|
      invariant 0 <= i <= |body|
      invariant Acc(names, columns, seen) == Absorb(Start, BodyDecls(body[..i]))
    {
      var stmt := body[i];
      ghost var before := Absorb(Start, BodyDecls(body[..i]));
      BodyDeclsStep(body, i);
      AbsorbConcat(Start, BodyDecls(body[..i]), StmtDecls(stmt));
      if stmt.AnnAssign? && stmt.target.NameTarget? {
        var n := stmt.target.id;
        AbsorbSnoc(before, [], Decl(n, stmt.value.Some? && IsColumnCall(stmt.value.value)));
        if n !in seen {
          if stmt.value.Some? && IsColumnCall(stmt.value.value) {
            columns := columns + [n];
          }
          names := names + [n];
          seen := seen + {n};
        }
      } else if stmt.Assign? {
        var col := IsColumnCall(stmt.rhs);
        var j := 0;
        while j < |stmt.targets|
          invariant 0 <= j <= |stmt.targets|
          invariant Acc(names, columns, seen) == Absorb(before, TargetDecls(stmt.targets[..j], col))
        {
          var t := stmt.targets[j];
          TargetDeclsStep(stmt.targets, j, col);
          if t.NameTarget? {
            var n := t.id;
            AbsorbSnoc(before, TargetDecls(stmt.targets[..j], col), Decl(n, col));
            if n !in seen {
              if col {
                columns := columns + [n];
              }
              names := names + [n];
              seen := seen + {n};
            }
          } else {
            assert TargetDecls(stmt.targets[..j], col) + [] == TargetDecls(stmt.targets[..j], col);
          }
          j := j + 1;
        }
        assert stmt.targets[..j] == stmt.targets;
      }
      i := i + 1;
    }
    assert body[..i] == body;
    SchemaOfIsValid(body);
    r := Success(Schema(names, columns));
  }

  /**
   * The promises of the extractor about a schema read from declarations `ds`:
   * distinct names, exactly the declared ones, in order of first declaration;
   * the columns are the names whose first declaration is a bare `Column(...)`
   * call, kept in the same relative order.
   */
  ghost predicate ValidSchema(s: Schema, ds: seq<Decl>) {
    && NoDuplicates(s.fieldNames)
    && (forall n :: n in s.fieldNames <==> Declared(ds, n))
    && (forall i, j :: 0 <= i < j < |s.fieldNames| ==>
          FirstIndex(ds, s.fieldNames[i]) < FirstIndex(ds, s.fieldNames[j]))
    && (forall n :: n in s.columnNames <==> n in s.fieldNames && FirstIsColumn(ds, n))
    && IsSubsequence(s.columnNames, s.fieldNames)
  }

  /** The extractor's promises hold of every class body. */
  lemma SchemaOfIsValid(body: seq<Stmt>)
    ensures ValidSchema(SchemaOf(body), BodyDecls(body))
  {
    var ds := BodyDecls(body);
    AbsorbMeaning(ds);
    ColumnFilterIsSubsequence(Absorb(Start, ds).names, ds);
    ColumnFilterMembers(Absorb(Start, ds).names, ds);
    forall n ensures Declared(ds, n) <==> FirstIndex(ds, n) < |ds| {
      FirstIndexOfDeclared(ds, n);
    }
  }

  /** Declarations of a name after its first one do not change whether it is a column. */
  lemma {:induction false} RedeclarationKeepsColumnFlag(ds: seq<Decl>, later: seq<Decl>, n: string)
    requires Declared(ds, n)
    ensures FirstIsColumn(ds + later, n) == FirstIsColumn(ds, n)
    ensures FirstIndex(ds + later, n) == FirstIndex(ds, n)
  {
    var k :| 0 <= k < |ds| && ds[k].name == n;
    if ds[0].name != n {
      assert (ds + later)[1..] == ds[1..] + later;
      assert ds[1..][k - 1].name == n;
      RedeclarationKeepsColumnFlag(ds[1..], later, n);
    }
  }

  /** The declarations of two consecutive runs of statements are those of each run, in order. */
  lemma {:induction false} BodyDeclsConcat(a: seq<Stmt>, b: seq<Stmt>)
    ensures BodyDecls(a + b) == BodyDecls(a) + BodyDecls(b)
  {
    if |b| == 0 {
      assert a + b == a;
    } else {
      var init := b[..|b| - 1];
      assert (a + b)[..|a + b| - 1] == a + init;
      assert (a + b)[|a + b| - 1] == b[|b| - 1];
      BodyDeclsConcat(a, init);
      assert BodyDecls(a) + BodyDecls(init) + StmtDecls(b[|b| - 1])
          == BodyDecls(a) + (BodyDecls(init) + StmtDecls(b[|b| - 1]));
    }
  }

  /** A statement other than an assignment to a bare name declares nothing. */
  lemma NonFieldStatementDeclaresNothing(s: Stmt)
    requires s.FunctionDef? || s.ClassDef? || s.OtherStmt?
          || (s.AnnAssign? && !s.target.NameTarget?)
          || (s.Assign? && forall t :: t in s.targets ==> !t.NameTarget?)
    ensures BodyDecls([s]) == []
  {
    if s.Assign? {
      NoNameTargetsNoDecls(s.targets, IsColumnCall(s.rhs));
    }
    assert [s][..0] == [];
  }

  /**
   * Statements other than assignments to bare names declare nothing: wherever
   * one stands in the class body, dropping it leaves the schema unchanged.
   */
  lemma {:induction false} NonFieldStatementsIgnored(before: seq<Stmt>, s: Stmt, after: seq<Stmt>)
    requires s.FunctionDef? || s.ClassDef? || s.OtherStmt?
          || (s.AnnAssign? && !s.target.NameTarget?)
          || (s.Assign? && forall t :: t in s.targets ==> !t.NameTarget?)
    ensures SchemaOf(before + [s] + after) == SchemaOf(before + after)
  {
    NonFieldStatementDeclaresNothing(s);
    BodyDeclsConcat(before, [s]);
    BodyDeclsConcat(before + [s], after);
    BodyDeclsConcat(before, after);
    assert BodyDecls(before + [s]) == BodyDecls(before);
    assert BodyDecls(before + [s] + after) == BodyDecls(before + after);
  }

  lemma {:induction false} NoNameTargetsNoDecls(targets: seq<Target>, isColumn: bool)
    requires forall t :: t in targets ==> !t.NameTarget?
    ensures TargetDecls(targets, isColumn) == []
  {
    if |targets| > 0 {
      assert targets[|targets| - 1] in targets;
      NoNameTargetsNoDecls(targets[..|targets| - 1], isColumn);
    }
  }

  /** `class MyPickleData(PickleSerialize): name = Column(); amount = 1` gives `[name, amount]` and `[name]`. */
  lemma MyPickleDataSchema()
    ensures SchemaOf([Assign([NameTarget("name")], Call(Name("Column"))),
                      Assign([NameTarget("amount")], Literal(Int(1)))])
         == Schema(["name", "amount"], ["name"])
  {
    var body := [Assign([NameTarget("name")], Call(Name("Column"))),
                 Assign([NameTarget("amount")], Literal(Int(1)))];
    assert body[..1] == [body[0]];
    assert [body[0]][..0] == [];
    assert BodyDecls(body) == [Decl("name", true), Decl("amount", false)];
    var ds := BodyDecls(body);
    assert ds[..1] == [Decl("name", true)];
    assert ds[..1][..0] == [];
  }
}
