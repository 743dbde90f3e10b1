/** Concrete files and what the resolver returns for them. */
module ResolverExamples {
  import opened FindFirst
  import opened SyntaxTree
  import opened StartupClass
  import opened Command

  /** static void Main() {} */
  function StaticMain(): Node {
    Method("Main", [StaticKeyword], [])
  }

  /** class C { static void Main() {} } qualifies, whatever its name. */
  lemma ClassWithStaticMainQualifies(c: string)
    ensures IsStartupClass(Class(c, [StaticMain()]))
  {
    PreOrderSingle(StaticMain());
    assert Descendants(Class(c, [StaticMain()])) == [StaticMain()];
    assert IsEntryMethod(StaticMain());
  }

  /** namespace N { class C { static void Main() {} } } */
  lemma NamespacedClass()
    ensures GetStartupClass(CompilationUnit([Namespace("N", [Class("C", [StaticMain()])])]))
            == Some("N.C")
  {
    var c := Class("C", [StaticMain()]);
    var unit := CompilationUnit([Namespace("N", [c])]);
    PreOrderSingle(StaticMain());
    PreOrderSingle(c);
    PreOrderSingle(Namespace("N", [c]));
    assert DescendantNodes(unit) == [Namespace("N", [c]), c, StaticMain()];
    ClassWithStaticMainQualifies("C");
    assert FirstMatchAt(unit, 1);
    QualifiedByFirstNamespace(unit, 0, 1);
    assert "N" + "." + "C" == "N.C";
  }

  /** class C { static void Main() {} } */
  lemma ClassWithoutNamespace()
    ensures GetStartupClass(CompilationUnit([Class("C", [StaticMain()])])) == Some("C")
  {
    var c := Class("C", [StaticMain()]);
    var unit := CompilationUnit([c]);
    PreOrderSingle(StaticMain());
    PreOrderSingle(c);
    assert DescendantNodes(unit) == [c, StaticMain()];
    ClassWithStaticMainQualifies("C");
    BareNameWithoutNamespace(unit, 0);
  }

  /** class C { public void Main() {} static void main() {} }: neither method
      qualifies, so nothing is found and nothing is written. */
  lemma NonStaticOrMiscasedMain(projectPath: string)
    ensures GetStartupClass(CompilationUnit([Class("C", [
              Method("Main", [PublicKeyword], []), Method("main", [StaticKeyword], [])])])).None?
    ensures Execute(projectPath, CompilationUnit([Class("C", [
              Method("Main", [PublicKeyword], []), Method("main", [StaticKeyword], [])])])).None?
  {
    var instanceMain := Method("Main", [PublicKeyword], []);
    var lowerMain := Method("main", [StaticKeyword], []);
    var c := Class("C", [instanceMain, lowerMain]);
    var unit := CompilationUnit([c]);
    PreOrderSingle(lowerMain);
    PreOrderCons(instanceMain, [lowerMain]);
    assert [instanceMain, lowerMain] == [instanceMain] + [lowerMain];
    PreOrderSingle(c);
    assert DescendantNodes(unit) == [c, instanceMain, lowerMain];
    assert !IsEntryMethod(instanceMain);
    assert !IsEntryMethod(lowerMain) by { assert "main"[0] != "Main"[0]; }
    NoEntryMethodMeansAbsent(unit);
  }

  /** namespace N { class A { void Run() {} } class B { static void Main() {} } }:
      the scan passes over A and returns B. */
  lemma SecondClassFound()
    ensures GetStartupClass(CompilationUnit([Namespace("N", [
              Class("A", [Method("Run", [], [])]), Class("B", [StaticMain()])])]))
            == Some("N.B")
  {
    var run := Method("Run", [], []);
    var a := Class("A", [run]);
    var b := Class("B", [StaticMain()]);
    var n := Namespace("N", [a, b]);
    var unit := CompilationUnit([n]);
    PreOrderSingle(run);
    PreOrderSingle(StaticMain());
    PreOrderSingle(b);
    PreOrderCons(a, [b]);
    assert [a, b] == [a] + [b];
    PreOrderSingle(n);
    assert DescendantNodes(unit) == [n, a, run, b, StaticMain()];
    assert !IsEntryMethod(run);
    assert !IsStartupClass(a);
    ClassWithStaticMainQualifies("B");
    assert FirstMatchAt(unit, 3);
    QualifiedByFirstNamespace(unit, 0, 3);
    assert "N" + "." + "B" == "N.B";
  }

  /** namespace A { class X {} } namespace B { class P { static void Main() {} } }:
      the prefix comes from the first namespace, not from P's own. */
  lemma PrefixFromFirstNamespace()
    ensures GetStartupClass(CompilationUnit([
              Namespace("A", [Class("X", [])]),
              Namespace("B", [Class("P", [StaticMain()])])]))
            == Some("A.P")
  {
    var x := Class("X", []);
    var p := Class("P", [StaticMain()]);
    var first := Namespace("A", [x]);
    var second := Namespace("B", [p]);
    var unit := CompilationUnit([first, second]);
    PreOrderSingle(x);
    PreOrderSingle(first);
    PreOrderSingle(StaticMain());
    PreOrderSingle(p);
    PreOrderSingle(second);
    PreOrderCons(first, [second]);
    assert [first, second] == [first] + [second];
    assert DescendantNodes(unit) == [first, x, second, p, StaticMain()];
    assert !IsStartupClass(x);
    ClassWithStaticMainQualifies("P");
    assert FirstMatchAt(unit, 3);
    QualifiedByFirstNamespace(unit, 0, 3);
    assert "A" + "." + "P" == "A.P";
  }

  /** namespace N { class Outer { class Inner { static void Main() {} } } }:
      Outer is returned, because its method search reaches Inner's Main and
      Outer comes first. */
  lemma NestedClassGivesOuter()
    ensures GetStartupClass(CompilationUnit([Namespace("N", [
              Class("Outer", [Class("Inner", [StaticMain()])])])]))
            == Some("N.Outer")
  {
    var inner := Class("Inner", [StaticMain()]);
    var outer := Class("Outer", [inner]);
    var n := Namespace("N", [outer]);
    var unit := CompilationUnit([n]);
    PreOrderSingle(StaticMain());
    PreOrderSingle(inner);
    PreOrderSingle(outer);
    PreOrderSingle(n);
    assert DescendantNodes(unit) == [n, outer, inner, StaticMain()];
    assert Descendants(outer)[0] == inner;
    ClassWithStaticMainQualifies("Inner");
    NestedMainResolvesToEnclosing(unit, 1, inner);
    assert NamespaceName(DescendantNodes(unit)) == "N";
    assert "N" + "." + "Outer" == "N.Outer";
  }

  /** A found name is written to the project's StartupObject property. */
  lemma WrittenToProject()
    ensures Execute("App.csproj", CompilationUnit([Class("C", [StaticMain()])]))
            == Some(PropertyWrite("App.csproj", "StartupObject", "C"))
    ensures Execute("", CompilationUnit([Class("C", [StaticMain()])])).None?
  {
    ClassWithoutNamespace();
  }
}
