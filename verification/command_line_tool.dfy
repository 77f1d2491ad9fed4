/** What the `CommandLineTool` implementations share: the command is the
    executable's name, prefixed with the working directory when one is given. */
module CommandLineTool {
  import opened Optional
  import opened KotlinStrings
  import opened KotlinCollections

  /** `listOfNotNull(workingDir, executable).joinToString(separator)`. */
  function Command(workingDir: Option<string>, separator: string, executable: string): (r: string)
    ensures workingDir.None? ==> r == executable
    ensures workingDir.Some? ==> r == workingDir.value + separator + executable
  {
    var xs := [workingDir, Some(executable)];
    assert [Some(executable)][1..] == [];
    assert ListOfNotNull([Some(executable)]) == [executable];
    assert xs[1..] == [Some(executable)];
    var parts := ListOfNotNull(xs);
    match workingDir
    case Some(dir) =>
      assert parts == [dir, executable] && parts[1..] == [executable];
      assert JoinToString(parts[1..], separator) == executable;
      assert JoinToString(parts, separator) == dir + separator + JoinToString(parts[1..], separator);
      JoinToString(parts, separator)
    case None =>
      JoinToString(parts, separator)
  }
}
