/** The entry-point resolver: the search part of `GetStartupClassAsync`
    (ChangeStartupObject/ChangeStartupObjectCommand.cs). It takes the parsed
    file and returns the name to write into the project's `StartupObject`
    property, or None where the C# code returns null. */
module StartupClass {
  import opened FindFirst
  import opened SyntaxTree

  /** `OfType<NamespaceDeclarationSyntax>()`. */
  predicate IsNamespace(n: Node) {
    n.Namespace?
  }

  /** The query's method test: identifier text exactly "Main" (so case
      sensitive) and a `static` modifier token among the modifiers. */
  predicate IsEntryMethod(n: Node) {
    n.Method? && n.identifier == "Main" && StaticKeyword in n.modifiers
  }

  /** A class qualifies when the first method among ALL its descendants that
      passes the test exists; nested types are searched too. */
  predicate IsStartupClass(n: Node) {
    n.Class? && FirstIndex(Descendants(n), IsEntryMethod).Some?
  }

  /** The namespace prefix: the name of the first namespace declaration
      anywhere in the file, or "" when there is none. */
  function NamespaceName(all: seq<Node>): (r: string)
    ensures r != "" ==> exists i :: 0 <= i < |all| && all[i].Namespace? && all[i].name == r
    ensures (forall i :: 0 <= i < |all| ==> !all[i].Namespace?) ==> r == ""
  {
    match FirstIndex(all, IsNamespace)
    case None => ""
    case Some(i) => all[i].name
  }

  /** The name the resolver returns for class `className` under prefix
      `namespaceName`: dotted when the prefix is non-empty, bare otherwise. */
  function Qualify(namespaceName: string, className: string): (r: string)
    ensures namespaceName != "" ==> |r| == |namespaceName| + 1 + |className|
    ensures namespaceName != "" ==>
      r[..|namespaceName|] == namespaceName && r[|namespaceName|] == '.'
      && r[|namespaceName| + 1..] == className
    ensures namespaceName == "" ==> r == className
  {
    if namespaceName != "" then namespaceName + "." + className else className
  }

  /** `GetStartupClassAsync` after the file is parsed. */
  function GetStartupClass(unit: CompilationUnit): (r: Option<string>)
    ensures r.None? <==> forall k :: 0 <= k < |DescendantNodes(unit)| ==> !IsStartupClass(DescendantNodes(unit)[k])
  {
    var all := DescendantNodes(unit);
    var namespaceName := NamespaceName(all);
    match FirstIndex(all, IsStartupClass)
    case None => None
    case Some(k) => Some(Qualify(namespaceName, all[k].identifier))
  }

  // ---------------------------------------------------------------------
  // Properties of the resolver

  /** A class declaration at position `k` of the file's pre-order that
      qualifies while no class before it does: the first match. */
  ghost predicate FirstMatchAt(unit: CompilationUnit, k: nat) {
    var all := DescendantNodes(unit);
    && k < |all|
    && IsStartupClass(all[k])
    && forall j :: 0 <= j < k ==> !IsStartupClass(all[j])
  }

  /** The first namespace declaration of the file is at position `n`. */
  ghost predicate FirstNamespaceAt(unit: CompilationUnit, n: nat) {
    var all := DescendantNodes(unit);
    && n < |all|
    && all[n].Namespace?
    && forall j :: 0 <= j < n ==> !all[j].Namespace?
  }

  /** With a named first namespace N and first matching class C the result is
      exactly "N.C", wherever C is declared. Classes before C that do not
      qualify are skipped. */
  lemma QualifiedByFirstNamespace(unit: CompilationUnit, n: nat, k: nat)
    requires FirstNamespaceAt(unit, n)
    requires DescendantNodes(unit)[n].name != ""
    requires FirstMatchAt(unit, k)
    ensures GetStartupClass(unit)
            == Some(DescendantNodes(unit)[n].name + "." + DescendantNodes(unit)[k].identifier)
  {
    var all := DescendantNodes(unit);
    FirstIndexUnique(all, IsNamespace, n);
    FirstIndexUnique(all, IsStartupClass, k);
  }

  /** A first namespace declaration whose name is empty (as the parser leaves
      a missing name) gives the bare class name, even if a later namespace is
      named. */
  lemma EmptyFirstNamespaceGivesBareName(unit: CompilationUnit, n: nat, k: nat)
    requires FirstNamespaceAt(unit, n)
    requires DescendantNodes(unit)[n].name == ""
    requires FirstMatchAt(unit, k)
    ensures GetStartupClass(unit) == Some(DescendantNodes(unit)[k].identifier)
  {
    var all := DescendantNodes(unit);
    FirstIndexUnique(all, IsNamespace, n);
    FirstIndexUnique(all, IsStartupClass, k);
  }

  /** Without any namespace declaration the result is the class identifier
      alone. */
  lemma BareNameWithoutNamespace(unit: CompilationUnit, k: nat)
    requires forall i :: 0 <= i < |DescendantNodes(unit)| ==> !DescendantNodes(unit)[i].Namespace?
    requires FirstMatchAt(unit, k)
    ensures GetStartupClass(unit) == Some(DescendantNodes(unit)[k].identifier)
  {
    FirstIndexUnique(DescendantNodes(unit), IsStartupClass, k);
  }

  /** A file in which every method is either not named exactly "Main" (so
      "main" too) or lacks a `static` modifier resolves to absent: an
      instance `Main` or a static method of another name never qualifies. */
  lemma OnlyStaticMainQualifies(unit: CompilationUnit)
    requires forall i :: 0 <= i < |DescendantNodes(unit)| && DescendantNodes(unit)[i].Method? ==>
               DescendantNodes(unit)[i].identifier != "Main" || StaticKeyword !in DescendantNodes(unit)[i].modifiers
    ensures GetStartupClass(unit).None?
  {
    NoEntryMethodMeansAbsent(unit);
  }

  /** If an enclosing class contains a qualifying class, it qualifies too:
      the method search of the outer class reaches the inner class's members. */
  lemma {:induction false} EnclosingClassQualifies(outer: Node, inner: Node)
    requires outer.Class?
    requires inner in Descendants(outer)
    requires IsStartupClass(inner)
    ensures IsStartupClass(outer)
  {
    var ds := Descendants(inner);
    var m := FirstIndex(ds, IsEntryMethod).value;
    DescendantsTransitive(outer, inner, ds[m]);
    var os := Descendants(outer);
    var p :| 0 <= p < |os| && os[p] == ds[m];
    assert IsEntryMethod(os[p]);
  }

  /** When the file has no method named "Main" with a `static` modifier
      anywhere, the result is absent. */
  lemma {:induction false} NoEntryMethodMeansAbsent(unit: CompilationUnit)
    requires forall i :: 0 <= i < |DescendantNodes(unit)| ==> !IsEntryMethod(DescendantNodes(unit)[i])
    ensures GetStartupClass(unit).None?
  {
    var all := DescendantNodes(unit);
    forall k | 0 <= k < |all| ensures !IsStartupClass(all[k]) {
      var ds := Descendants(all[k]);
      forall m | 0 <= m < |ds| ensures !IsEntryMethod(ds[m]) {
        DescendantsFollow(unit.members, k, ds[m]);
      }
    }
  }

  /** The class the resolver picks is never nested inside another class
      declaration: a class whose subtree covers its position comes earlier in
      document order and would qualify first. */
  lemma {:induction false} ResolvedClassIsOutermost(unit: CompilationUnit, k: nat, i: nat)
    requires FirstMatchAt(unit, k)
    requires i < |DescendantNodes(unit)| && DescendantNodes(unit)[i].Class?
    ensures !(i < k <= i + |Descendants(DescendantNodes(unit)[i])|)
  {
    var all := DescendantNodes(unit);
    SubtreeFollows(unit.members, i);
    if i < k <= i + |Descendants(all[i])| {
      assert all[k] == Descendants(all[i])[k - i - 1];
      EnclosingClassQualifies(all[i], all[k]);
      assert false;
    }
  }

  /** When a class nested inside the class at position `i` declares
      `static Main` and no class before position `i` qualifies, the enclosing
      class at `i` is the one returned. */
  lemma {:induction false} NestedMainResolvesToEnclosing(unit: CompilationUnit, i: nat, inner: Node)
    requires i < |DescendantNodes(unit)| && DescendantNodes(unit)[i].Class?
    requires inner in Descendants(DescendantNodes(unit)[i]) && IsStartupClass(inner)
    requires forall j :: 0 <= j < i ==> !IsStartupClass(DescendantNodes(unit)[j])
    ensures GetStartupClass(unit)
            == Some(Qualify(NamespaceName(DescendantNodes(unit)), DescendantNodes(unit)[i].identifier))
  {
    var all := DescendantNodes(unit);
    EnclosingClassQualifies(all[i], inner);
    FirstIndexUnique(all, IsStartupClass, i);
  }
}
