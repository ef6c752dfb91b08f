/** The compiler driver: one compiler invocation (executable plus the
    arguments forwarded from the command line) run in three ways, to compile
    one unit, to link all units, and to list a source's prerequisites.
    A process run is an oracle `run` from the command line to its outcome. */
module Compilers {
  import opened Paths
  import opened Diagnostics
  import opened MakeRule
  import opened Units

  // ---------------------------------------------------------------------
  // The three command lines

  /** `<compiler> <args> -c <source> -o <object>`. */
  function CompileCommand(parts: seq<string>, unit: TranslationUnit): (command: seq<string>)
    ensures |command| == |parts| + 4 && command[..|parts|] == parts
    ensures command[|parts|..] == ["-c", unit.rootPath, "-o", unit.objectPath]
  {
    parts + ["-c", unit.rootPath, "-o", unit.objectPath]
  }

  /** The object paths of `units`, in their order. */
  function ObjectPaths(units: seq<TranslationUnit>): (paths: seq<Path>)
    ensures |paths| == |units|
    ensures forall i :: 0 <= i < |units| ==> paths[i] == units[i].objectPath
  {
    if units == [] then []
    else ObjectPaths(units[..|units| - 1]) + [units[|units| - 1].objectPath]
  }

  /** `<compiler> <args> -o <out> <object> ...`, the objects in unit order. */
  function LinkCommand(parts: seq<string>, units: seq<TranslationUnit>, outFile: Path): (command: seq<string>)
    ensures |command| == |parts| + 2 + |units|
    ensures command[..|parts|] == parts && command[|parts|] == "-o" && command[|parts| + 1] == outFile
    ensures forall i :: 0 <= i < |units| ==> command[|parts| + 2 + i] == units[i].objectPath
  {
    parts + ["-o", outFile] + ObjectPaths(units)
  }

  /** `<compiler> <args> <file> -MM -MT ""`: print the make rule listing the
      headers `file` includes (not system headers), with an empty target. */
  function DependencyCommand(parts: seq<string>, file: Path): (command: seq<string>)
    ensures |command| == |parts| + 4 && command[..|parts|] == parts
    ensures command[|parts|..] == [file, "-MM", "-MT", ""]
  {
    parts + [file, "-MM", "-MT", ""]
  }

  /** The loop that pushes each unit's object path onto a command. */
  method AppendObjectPaths(command: seq<string>, units: seq<TranslationUnit>) returns (extended: seq<string>)
    ensures extended == command + ObjectPaths(units)
  {
    extended := command;
    var i := 0;
    while i < |units|
      invariant 0 <= i <= |units|
      invariant extended == command + ObjectPaths(units[..i])
    {
      assert units[..i + 1][..i] == units[..i];
      extended := extended + [units[i].objectPath];
      i := i + 1;
    }
    assert units[..|units|] == units;
  }

  // ---------------------------------------------------------------------
  // What each run appends to the error

  /** Messages a run contributes before the caller's context line: the
      process layer's diagnostic, or the child's stderr text followed by
      "Exit status N.". */
  function RunErrors(outcome: Run): (errors: seq<Message>)
    ensures errors == [] <==> outcome.Succeeded()
    ensures outcome.Exited? && outcome.status != 0 ==> errors == [Cause(outcome.stderr), ExitStatus(outcome.status)]
    ensures !outcome.Exited? ==> errors == [Cause(outcome.detail)]
  {
    match outcome
    case SpawnFailed(detail) => [Cause(detail)]
    case WaitFailed(detail) => [Cause(detail)]
    case Exited(status, _, stderr) => if status == 0 then [] else [Cause(stderr), ExitStatus(status)]
  }

  /** Compiling succeeds exactly when the compiler ran and exited with 0;
      otherwise the last message names the source, the object and the whole
      command. */
  function CompileErrors(parts: seq<string>, unit: TranslationUnit, outcome: Run): (errors: seq<Message>)
    ensures errors == [] <==> outcome.Succeeded()
    ensures errors != [] ==> errors[..|errors| - 1] == RunErrors(outcome)
    ensures errors != [] ==> errors[|errors| - 1] == CompileFailed(unit.rootPath, unit.objectPath, CommandString(CompileCommand(parts, unit)))
  {
    if outcome.Succeeded() then []
    else RunErrors(outcome) + [CompileFailed(unit.rootPath, unit.objectPath, CommandString(CompileCommand(parts, unit)))]
  }

  /** Linking likewise; its last message names the output, the number of
      objects and the whole command. */
  function LinkErrors(parts: seq<string>, units: seq<TranslationUnit>, outFile: Path, outcome: Run): (errors: seq<Message>)
    ensures errors == [] <==> outcome.Succeeded()
    ensures errors != [] ==> errors[..|errors| - 1] == RunErrors(outcome)
    ensures errors != [] ==> errors[|errors| - 1] == LinkFailed(outFile, |units|, CommandString(LinkCommand(parts, units, outFile)))
  {
    if outcome.Succeeded() then []
    else RunErrors(outcome) + [LinkFailed(outFile, |units|, CommandString(LinkCommand(parts, units, outFile)))]
  }

  /** The prerequisites listed by a dependency run, or what went wrong. */
  datatype Dependencies = Dependencies(names: seq<Path>, errors: seq<Message>)

  /** The parser starts one character into the output, so a successful
      dependency run must have printed something (GCC always prints at least
      the colon of the rule). */
  predicate RuleReadable(outcome: Run)
  {
    outcome.Succeeded() ==> |outcome.stdout| >= 1
  }

  /** A dependency run that exits with 0 yields the parsed rule's names,
      none of which holds a backslash; any failure yields no names and an
      error whose last message names the file. */
  function MakePrerequisites(parts: seq<string>, file: Path, outcome: Run): (d: Dependencies)
    requires RuleReadable(outcome)
    ensures d.errors == [] <==> outcome.Succeeded()
    ensures outcome.Succeeded() ==> d.names == RulePrerequisites(outcome.stdout)
    ensures forall k :: 0 <= k < |d.names| ==> NoEscape(d.names[k])
    ensures d.errors != [] ==> d.names == [] && d.errors[|d.errors| - 1] == PrerequisitesFailed(file)
    ensures outcome.Exited? && outcome.status != 0 ==>
      d.errors == [Cause(outcome.stderr), ExitStatusFrom(outcome.status, CommandString(DependencyCommand(parts, file))), PrerequisitesFailed(file)]
  {
    match outcome
    case SpawnFailed(detail) => Dependencies([], [Cause(detail), PrerequisitesFailed(file)])
    case WaitFailed(detail) => Dependencies([], [Cause(detail), PrerequisitesFailed(file)])
    case Exited(status, stdout, stderr) =>
      if status != 0 then
        Dependencies([], [Cause(stderr), ExitStatusFrom(status, CommandString(DependencyCommand(parts, file))), PrerequisitesFailed(file)])
      else
        Dependencies(RulePrerequisites(stdout), [])
  }

  // ---------------------------------------------------------------------
  // The compiler object

  class Compiler {
    /** The executable followed by the arguments forwarded to it. */
    const commandParts: seq<string>

    constructor (executable: string, arguments: seq<string>)
      ensures commandParts == [executable] + arguments
    {
      commandParts := [executable] + arguments;
    }

    method Compile(unit: TranslationUnit, run: seq<string> -> Run) returns (errors: seq<Message>)
      ensures errors == CompileErrors(commandParts, unit, run(CompileCommand(commandParts, unit)))
    {
      var command := commandParts + ["-c", unit.rootPath, "-o", unit.objectPath];
      var outcome := run(command);
      match outcome {
        case SpawnFailed(detail) =>
          errors := [Cause(detail)];
        case WaitFailed(detail) =>
          errors := [Cause(detail)];
        case Exited(status, _, stderr) =>
          if status == 0 {
            return [];
          }
          errors := [Cause(stderr), ExitStatus(status)];
      }
      var commandString := JoinCommand(command);
      errors := errors + [CompileFailed(unit.rootPath, unit.objectPath, commandString)];
    }

    method Link(units: seq<TranslationUnit>, outFile: Path, run: seq<string> -> Run) returns (errors: seq<Message>)
      ensures errors == LinkErrors(commandParts, units, outFile, run(LinkCommand(commandParts, units, outFile)))
    {
      var command := AppendObjectPaths(commandParts + ["-o", outFile], units);
      var outcome := run(command);
      match outcome {
        case SpawnFailed(detail) =>
          errors := [Cause(detail)];
        case WaitFailed(detail) =>
          errors := [Cause(detail)];
        case Exited(status, _, stderr) =>
          if status == 0 {
            return [];
          }
          errors := [Cause(stderr), ExitStatus(status)];
      }
      var commandString := JoinCommand(command);
      errors := errors + [LinkFailed(outFile, |units|, commandString)];
    }

    method GetMakePrerequisites(file: Path, run: seq<string> -> Run) returns (prerequisites: seq<Path>, errors: seq<Message>)
      requires RuleReadable(run(DependencyCommand(commandParts, file)))
      ensures Dependencies(prerequisites, errors) == MakePrerequisites(commandParts, file, run(DependencyCommand(commandParts, file)))
    {
      var command := commandParts + [file, "-MM", "-MT", ""];
      var outcome := run(command);
      match outcome {
        case SpawnFailed(detail) =>
          errors := [Cause(detail)];
        case WaitFailed(detail) =>
          errors := [Cause(detail)];
        case Exited(status, stdout, stderr) =>
          if status != 0 {
            var commandString := JoinCommand(command);
            errors := [Cause(stderr), ExitStatusFrom(status, commandString)];
          } else {
            prerequisites := ParseMakeRule(stdout);
            return prerequisites, [];
          }
      }
      return [], errors + [PrerequisitesFailed(file)];
    }
  }
}
