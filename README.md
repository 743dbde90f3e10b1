# ChangeStartupObject: the startup-object resolver

ChangeStartupObject is a Visual Studio command. When it is invoked, it reads the active C# file and looks for a class that declares a `static` method named `Main`. If it finds one, it sets the owning project's `StartupObject` build property to that class's name. The name is prefixed with a namespace when the file has one.

This project models that decision in Dafny and proves properties of it. The model has two parts:

- `GetStartupClass` is the search done by `GetStartupClassAsync` once the file has been parsed.
- `StartupObjectWrite` / `Execute` is the guard in `Execute` that decides whether the property is written.

The syntax tree that Roslyn would produce is the input. It is an inductive datatype (`SyntaxTree.Node`) with four kinds of node:

- `Namespace(name, children)`: a block-bodied namespace declaration;
- `Class(identifier, children)`: a class declaration;
- `Method(identifier, modifiers, children)`: a method declaration, where `children` are the nodes of its parameters and body;
- `Other(children)`: any other node kind. This includes file-scoped namespaces, structs, records and interfaces, because the C# code queries only the three types above.

`DescendantNodes` is the pre-order traversal `PreOrder`, which is document order. The LINQ queries are `FirstIndex`, a find-first scan over that sequence. It returns the position of the first element that passes a test, or `None`.

The resolver as modelled:

1. The prefix is the name of the first namespace declaration anywhere in the file, or `""` when there is none.
2. Classes are scanned in document order. A class qualifies when some node among *all* its descendants is a method whose identifier is exactly `Main` and whose modifiers include `static`. Nested types are included in that search.
3. The first class that qualifies gives `prefix + "." + identifier` when the prefix is non-empty, and the bare identifier otherwise.
4. When no class qualifies, the result is `None`. The C# code returns `null` in that case.

`Execute` produces a `PropertyWrite(projectPath, "StartupObject", name)` event only when both the project path and the resolved name are non-empty.

Some consequences of the code as written are proved as lemmas:

- The prefix comes from the first namespace block even when the chosen class is declared in another block (`QualifiedByFirstNamespace`, `PrefixFromFirstNamespace`).
- A `static Main` in a nested class makes its enclosing class the result (`NestedMainResolvesToEnclosing`, `NestedClassGivesOuter`).
- The chosen class is never nested inside another class (`ResolvedClassIsOutermost`).

Two details of the code that a reader might not expect:

- The method search walks all descendants of a class, not only its own methods.
- The prefix is dropped when the first namespace's name is empty, not only when there is no namespace.

Resolution is a total function of the tree, so calling it twice on the same tree gives the same result by construction.

## Model

| member | source | states |
|---|---|---|
| SyntaxTree.PreOrder | ChangeStartupObject/ChangeStartupObjectCommand.cs:136 | depth-first pre-order of a forest: each node, then its own subtree, then its later siblings, which is document order |
| SyntaxTree.Descendants | ChangeStartupObject/ChangeStartupObjectCommand.cs:145 | `classDeclaration.DescendantNodes()`: all strict descendants of a node in pre-order, the node itself excluded |
| SyntaxTree.DescendantNodes | ChangeStartupObject/ChangeStartupObjectCommand.cs:136-140 | `root.DescendantNodes()`: every node of the file in pre-order, the compilation-unit root excluded |
| StartupClass.IsNamespace | ChangeStartupObject/ChangeStartupObjectCommand.cs:136 | `OfType<NamespaceDeclarationSyntax>()`: only block-bodied namespace declarations count as namespaces |
| StartupClass.IsEntryMethod | ChangeStartupObject/ChangeStartupObjectCommand.cs:147 | the method test: a method declaration whose identifier is exactly "Main" and whose modifiers include the static keyword |
| StartupClass.IsStartupClass | ChangeStartupObject/ChangeStartupObjectCommand.cs:145-149 | a class declaration for which the search over all its descendants finds a method passing the test (`mainMethod != null`) |
| FindFirst.FirstIndex | ChangeStartupObject/ChangeStartupObjectCommand.cs:145-147 | `FirstOrDefault(pred)` as a position: when present, that element passes the test and no earlier one does; absent exactly when no element passes |
| FindFirst.FirstIndexUnique | ChangeStartupObject/ChangeStartupObjectCommand.cs:142-156 | any position that passes the test, with no earlier position passing, is the one the scan finds |
| SyntaxTree.SubtreeFollows | ChangeStartupObject/ChangeStartupObjectCommand.cs:140 | in document order each node is immediately followed by exactly its own descendants |
| SyntaxTree.DescendantsFollow | ChangeStartupObject/ChangeStartupObjectCommand.cs:140 | every descendant of the node at position i occurs in the traversal at a later position |
| SyntaxTree.DescendantsTransitive | ChangeStartupObject/ChangeStartupObjectCommand.cs:145-147 | a descendant of a descendant of a class is a descendant of that class, so the class's method search reaches it |
| StartupClass.NamespaceName | ChangeStartupObject/ChangeStartupObjectCommand.cs:136-137 | a non-empty prefix is the name of some namespace declaration of the file; the prefix is "" in a file without namespace declarations |
| StartupClass.Qualify | ChangeStartupObject/ChangeStartupObjectCommand.cs:152-154 | with a non-empty prefix the name is the prefix, a dot, then the class identifier; with an empty prefix it is the identifier alone |
| StartupClass.GetStartupClass | ChangeStartupObject/ChangeStartupObjectCommand.cs:142-158 | the result is absent (null) exactly when no class in the file qualifies |
| StartupClass.QualifiedByFirstNamespace | ChangeStartupObject/ChangeStartupObjectCommand.cs:136-153 | with a named first namespace N and first qualifying class C the result is exactly "N.C", wherever C is declared; earlier non-qualifying classes do not stop the scan |
| StartupClass.EmptyFirstNamespaceGivesBareName | ChangeStartupObject/ChangeStartupObjectCommand.cs:137-154 | a first namespace whose name is empty yields the bare class identifier |
| StartupClass.BareNameWithoutNamespace | ChangeStartupObject/ChangeStartupObjectCommand.cs:137-154 | a file without namespace declarations yields the first qualifying class's identifier alone |
| StartupClass.OnlyStaticMainQualifies | ChangeStartupObject/ChangeStartupObjectCommand.cs:145-158 | a file in which every method is either not named exactly "Main" (so "main" too) or has no static modifier resolves to absent (null) |
| StartupClass.EnclosingClassQualifies | ChangeStartupObject/ChangeStartupObjectCommand.cs:145-149 | a class that contains a qualifying class qualifies itself |
| StartupClass.NoEntryMethodMeansAbsent | ChangeStartupObject/ChangeStartupObjectCommand.cs:145-158 | a file with no static method named "Main" anywhere resolves to absent |
| StartupClass.ResolvedClassIsOutermost | ChangeStartupObject/ChangeStartupObjectCommand.cs:140-155 | no class declaration's subtree covers the position of the chosen class |
| StartupClass.NestedMainResolvesToEnclosing | ChangeStartupObject/ChangeStartupObjectCommand.cs:140-155 | when a class nested in the class at position i qualifies, and no class before i does, the enclosing class at i is the result |
| Command.StartupObjectWrite | ChangeStartupObject/ChangeStartupObjectCommand.cs:110-112 | a write happens exactly when the project path is non-empty and a non-empty name was resolved; it sets StartupObject to that name in that project |
| Command.Execute | ChangeStartupObject/ChangeStartupObjectCommand.cs:108-113 | any write goes to the given project, sets the StartupObject property, and carries the name the resolver returned |
| Command.NoWriteWithoutEntryMethod | ChangeStartupObject/ChangeStartupObjectCommand.cs:108-113 | nothing is written for a file without a static Main |
| Command.NoWriteOfEmptyName | ChangeStartupObject/ChangeStartupObjectCommand.cs:110-112 | a class with an empty identifier in a file without namespaces resolves to "" and is not written |
| ResolverExamples.ClassWithStaticMainQualifies | ChangeStartupObject/ChangeStartupObjectCommand.cs:145-149 | a class declaring static Main qualifies |
| ResolverExamples.NamespacedClass | ChangeStartupObject/ChangeStartupObjectCommand.cs:136-154 | namespace N { class C { static void Main() {} } } resolves to "N.C" |
| ResolverExamples.ClassWithoutNamespace | ChangeStartupObject/ChangeStartupObjectCommand.cs:137-154 | class C { static void Main() {} } resolves to "C" |
| ResolverExamples.NonStaticOrMiscasedMain | ChangeStartupObject/ChangeStartupObjectCommand.cs:145-158 | an instance Main and a static main give no result and no write |
| ResolverExamples.SecondClassFound | ChangeStartupObject/ChangeStartupObjectCommand.cs:142-156 | of two classes, only the second having static Main, the second is returned |
| ResolverExamples.PrefixFromFirstNamespace | ChangeStartupObject/ChangeStartupObjectCommand.cs:136-153 | a class in the second namespace block gets the first block's name as prefix |
| ResolverExamples.NestedClassGivesOuter | ChangeStartupObject/ChangeStartupObjectCommand.cs:140-155 | static Main in Inner nested in Outer resolves to "N.Outer" |
| ResolverExamples.WrittenToProject | ChangeStartupObject/ChangeStartupObjectCommand.cs:110-123 | a resolved name is written as StartupObject; with an empty project path nothing is written |

## Left out

- Reading the file (`File.ReadAllText`) is I/O. The model starts from the parsed tree.
- Parsing with Roslyn (`CSharpSyntaxTree.ParseText`, `GetRootAsync`) is a foreign library. The model takes the tree as input. Which declarations a malformed file still yields is up to that parser.
- The model takes a namespace's `Name.ToString()` and a class's `Identifier.Text` as given strings. It does not model how Roslyn renders them.
- Async execution, `JoinableTaskFactory` and the switch to the UI thread are concurrency and host plumbing.
- Getting the active document and its project through the DTE automation model is IDE glue. The project path is a parameter. A null path is represented as "", because `IsNullOrEmpty` treats the two alike.
- `SetStartupObject` loads, changes and saves an MSBuild project. It is modelled only as the `PropertyWrite` event it is asked to perform.
- Command registration, the command GUID and ID, `Instance`, `InitializeAsync`, the constructor and its null-argument checks are UI wiring with no decision content.
- `StartupClass.NamespaceName`: its contract does not say that the name comes from the *first* namespace declaration. That stronger statement is in `QualifiedByFirstNamespace` and `EmptyFirstNamespaceGivesBareName`.
