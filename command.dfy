/** The decision `Execute` makes after resolving the active file
    (ChangeStartupObject/ChangeStartupObjectCommand.cs). Writing the project
    file is an event the model returns instead of performing. */
module Command {
  import opened FindFirst
  import opened SyntaxTree
  import opened StartupClass

  /** The build property `SetStartupObject` assigns. */
  const StartupObjectProperty: string := "StartupObject"

  /** One call of `SetStartupObject`: set `property` to `value` in the
      project file at `projectPath`. */
  datatype PropertyWrite = PropertyWrite(projectPath: string, property: string, value: string)

  /** The guard of `Execute`: the property is written only when the project
      path and the resolved name are both non-empty (a C# null project path is
      modelled as ""). */
  function StartupObjectWrite(projectPath: string, resolved: Option<string>): (w: Option<PropertyWrite>)
    ensures w.Some? <==> projectPath != "" && resolved.Some? && resolved.value != ""
    ensures w.Some? ==> w.value == PropertyWrite(projectPath, StartupObjectProperty, resolved.value)
  {
    match resolved
    case Some(name) =>
      if projectPath != "" && name != "" then
        Some(PropertyWrite(projectPath, StartupObjectProperty, name))
      else None
    case None => None
  }

  /** `Execute`: resolve the active file, then write the result if the guard
      allows it. */
  function Execute(projectPath: string, unit: CompilationUnit): (w: Option<PropertyWrite>)
    ensures w.Some? ==> w.value.projectPath == projectPath && w.value.property == StartupObjectProperty
    ensures w.Some? ==> GetStartupClass(unit) == Some(w.value.value)
  {
    StartupObjectWrite(projectPath, GetStartupClass(unit))
  }

  /** Nothing is written when the file has no `static Main`. */
  lemma NoWriteWithoutEntryMethod(projectPath: string, unit: CompilationUnit)
    requires forall i :: 0 <= i < |DescendantNodes(unit)| ==> !IsEntryMethod(DescendantNodes(unit)[i])
    ensures Execute(projectPath, unit).None?
  {
    NoEntryMethodMeansAbsent(unit);
  }

  /** A class whose identifier is empty (a missing identifier in a file
      without a namespace) resolves to "" and is not written. */
  lemma NoWriteOfEmptyName(projectPath: string, unit: CompilationUnit, k: nat)
    requires forall i :: 0 <= i < |DescendantNodes(unit)| ==> !DescendantNodes(unit)[i].Namespace?
    requires FirstMatchAt(unit, k)
    requires DescendantNodes(unit)[k].identifier == ""
    ensures GetStartupClass(unit) == Some("")
    ensures Execute(projectPath, unit).None?
  {
    BareNameWithoutNamespace(unit, k);
  }
}
