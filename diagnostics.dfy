/** What the driver's error object receives, and what an external process
    run yields.

    The driver passes one error object by reference through every call and
    only ever appends to it; it counts as "set" once anything was appended.
    The model therefore describes a failing operation by the sequence of
    messages it appends (empty: no error). Formatted texts are kept as
    structured messages carrying the values the format strings interpolate. */
module Diagnostics {
  import opened Paths

  datatype Message =
    | Cause(text: string)                      // what() of an exception, a child's stderr, a strerror text
    | NoSuchFile(path: Path)                   // what() of the filesystem_error for a missing file
    | ExitStatus(status: int)                  // "Exit status N."
    | ExitStatusFrom(status: int, command: string)
    | CompileFailed(source: Path, object: Path, command: string)
    | LinkFailed(outFile: Path, objectCount: nat, command: string)
    | PrerequisitesFailed(file: Path)
    | ObjectTimeFailed(object: Path)
    | PrerequisiteTimeFailed(prerequisite: Path)
    | OutdatedCheckFailed(source: Path, objectTime: int)
    | IteratorFailed(directory: Path)
    | DiscoveryFailed(directory: Path)
    | FindChangedFailed

  /** The outcome of starting a child process and waiting for it: the
      process layer failed (its own diagnostic chain is summarised in
      `detail`), or the child exited normally with a status and what it
      wrote to its standard output and standard error. */
  datatype Run =
    | SpawnFailed(detail: string)
    | WaitFailed(detail: string)
    | Exited(status: int, stdout: string, stderr: string)
  {
    predicate Succeeded() { Exited? && status == 0 }
  }

  /** The command as it is quoted in error messages: every part preceded by
      one space. */
  function CommandString(parts: seq<string>): string
  {
    if parts == [] then ""
    else CommandString(parts[..|parts| - 1]) + " " + parts[|parts| - 1]
  }

  /** The quoted form of a longer command starts with the quoted form of its
      leading parts, so the stored compiler invocation always leads every
      command string the driver reports. */
  lemma {:induction false} CommandStringAppend(a: seq<string>, b: seq<string>)
    ensures CommandString(a + b) == CommandString(a) + CommandString(b)
    decreases |b|
  {
    if b == [] {
      assert a + b == a;
    } else {
      var init := b[..|b| - 1];
      assert (a + b)[..|a + b| - 1] == a + init;
      CommandStringAppend(a, init);
    }
  }

  /** Each part contributes its own length plus one separating space. */
  lemma {:induction false} CommandStringLength(parts: seq<string>)
    ensures |CommandString(parts)| == |parts| + TotalLength(parts)
    decreases |parts|
  {
    if parts != [] {
      CommandStringLength(parts[..|parts| - 1]);
    }
  }

  function TotalLength(parts: seq<string>): nat
  {
    if parts == [] then 0 else TotalLength(parts[..|parts| - 1]) + |parts[|parts| - 1]|
  }

  /** The loop that builds the command string for an error message. */
  method JoinCommand(command: seq<string>) returns (commandString: string)
    ensures commandString == CommandString(command)
  {
    commandString := "";
    var i := 0;
    while i < |command|
      invariant 0 <= i <= |command|
      invariant commandString == CommandString(command[..i])
    {
      assert command[..i + 1][..i] == command[..i];
      commandString := commandString + " " + command[i];
      i := i + 1;
    }
    assert command[..|command|] == command;
  }
}
