/**
 * Qualified names of production classes: the package a class belongs to, the
 * `package.ClassName` key it is registered under, and the key recovered from
 * an IRIS-side object whose module is `iris.<package>`.
 */
module QualifiedNames {
  import opened Wrappers
  import opened PyValues

  /** `s.split(".")[-1]`: the text after the last dot, or all of `s` when it has none. */
  function LastComponent(s: string): (r: string)
    ensures '.' !in r
    ensures |r| <= |s| && r == s[|s| - |r|..]
    ensures |r| < |s| ==> s[|s| - |r| - 1] == '.'
  {
    if |s| == 0 then ""
    else if s[|s| - 1] == '.' then ""
    else
      var r := LastComponent(s[..|s| - 1]) + [s[|s| - 1]];
      assert s[|s| - |r|..] == s[..|s| - 1][|s| - |r|..] + [s[|s| - 1]];
      r
  }

  /**
   * The package of a class: its own `package_name` attribute, else the
   * `package_name` of its module, else the last dotted component of the
   * module's name.
   */
  function ResolvePackage(classPackage: Option<string>, modulePackage: Option<string>, moduleName: string): (pkg: string)
    ensures classPackage.Some? ==> pkg == classPackage.value
    ensures classPackage.None? && modulePackage.Some? ==> pkg == modulePackage.value
    ensures classPackage.None? && modulePackage.None? ==>
              '.' !in pkg && |pkg| <= |moduleName| && moduleName == moduleName[..|moduleName| - |pkg|] + pkg
              && (|pkg| < |moduleName| ==> moduleName[|moduleName| - |pkg| - 1] == '.')
  {
    if classPackage.Some? then classPackage.value
    else if modulePackage.Some? then modulePackage.value
    else
      var pkg := LastComponent(moduleName);
      assert moduleName == moduleName[..|moduleName| - |pkg|] + moduleName[|moduleName| - |pkg|..];
      pkg
  }

  /** The registry key `package + "." + ClassName`. */
  function QualifiedName(pkg: string, className: string): string {
    pkg + "." + className
  }

  /** The class name is what follows the last dot of a key, since class names hold no dot. */
  lemma {:induction false} ClassNameOfQualifiedName(pkg: string, className: string)
    requires '.' !in className
    ensures LastComponent(QualifiedName(pkg, className)) == className
  {
    var q := QualifiedName(pkg, className);
    if |className| > 0 {
      var pre := className[..|className| - 1];
      assert q[..|q| - 1] == QualifiedName(pkg, pre);
      assert className[|className| - 1] in className;
      ClassNameOfQualifiedName(pkg, pre);
      assert className == pre + [className[|className| - 1]];
    }
  }

  /** Two classes share a key only if they share package and name (class names hold no dot). */
  lemma {:induction false} QualifiedNameInjective(p1: string, c1: string, p2: string, c2: string)
    requires '.' !in c1 && '.' !in c2
    requires QualifiedName(p1, c1) == QualifiedName(p2, c2)
    ensures p1 == p2 && c1 == c2
  {
    ClassNameOfQualifiedName(p1, c1);
    ClassNameOfQualifiedName(p2, c2);
    var q := QualifiedName(p1, c1);
    assert p1 == q[..|p1|] && p2 == q[..|p2|];
  }

  /**
   * The key `_createmessage` forms for an incoming object: its module name
   * without the first five characters (the `iris.` prefix), a dot, its class name.
   */
  function IncomingKey(moduleName: string, className: string): (key: string)
    ensures |moduleName| >= 5 ==> key == moduleName[5..] + "." + className
    ensures |moduleName| < 5 ==> key == "." + className
  {
    DropPrefix(moduleName, 5) + "." + className
  }

  /** An IRIS class generated for package `pkg` lives in module `iris.<pkg>`, whose key is the registered one. */
  lemma IncomingKeyOfIrisModule(pkg: string, className: string)
    ensures IncomingKey("iris." + pkg, className) == QualifiedName(pkg, className)
  {
    assert ("iris." + pkg)[5..] == pkg;
  }

  /** The five characters are dropped whatever they are: any five-character prefix gives the same key. */
  lemma IncomingKeyIgnoresPrefix(prefix: string, pkg: string, className: string)
    requires |prefix| == 5
    ensures IncomingKey(prefix + pkg, className) == QualifiedName(pkg, className)
  {
    assert (prefix + pkg)[5..] == pkg;
  }

  /** A name without a dot is its own last component. */
  lemma LastComponentOfDotless(s: string)
    requires '.' !in s
    ensures LastComponent(s) == s
  {
    assert s[0..] == s;
  }

  /**
   * A class in a top-level module with no `package_name` anywhere is keyed by
   * its module's name.
   */
  lemma ModuleNameKey(moduleName: string, className: string)
    requires '.' !in moduleName
    ensures QualifiedName(ResolvePackage(None, None, moduleName), className) == moduleName + "." + className
  {
    LastComponentOfDotless(moduleName);
  }

  /**
   * The QuickStart example names its package only through `iris_package_name`,
   * which is not looked at, so the key falls back to the module name.
   */
  lemma QuickStartKey(moduleName: string)
    requires moduleName == "QuickStart"
    ensures QualifiedName(ResolvePackage(None, None, moduleName), "MyPickleData") == "QuickStart.MyPickleData"
  {
    ModuleNameKey(moduleName, "MyPickleData");
    assert moduleName + "." + "MyPickleData" == "QuickStart.MyPickleData";
  }
}
