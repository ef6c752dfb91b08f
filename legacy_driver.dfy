/** The older single-file driver: an error object that stacks messages and
    keeps the latest machine-readable reason, a command wrapper with a
    "running" flag around popen/pclose, and a main that compiles the last
    argument with g++.

    popen and pclose are outside the model: their outcomes are parameters
    (the file handle as an abstract number, a failure with its strerror
    text, or how the child ended). */
module LegacyDriver {
  import opened Wrappers

  /** Reasons: 0 is never meant to be used, 1 is "other", custom reasons
      start at 2. */
  const ReasonNone: int := 0
  const ReasonOther: int := 1
  const CustomReasonStart: int := 2
  /** The one custom reason of the command wrapper. */
  const CommandAlreadyRunning: int := CustomReasonStart

  const Newline: char := '\n'

  /** The message stack after appending `messages` in order to `stack`:
      each message is followed by a newline, the earlier ones stay in
      front. */
  function Stacked(stack: string, messages: seq<string>): (s: string)
    ensures |s| >= |stack| + |messages|
  {
    if messages == [] then stack
    else Stacked(stack, messages[..|messages| - 1]) + messages[|messages| - 1] + [Newline]
  }

  /** Stacking never rewrites what is already there, and every appended
      message ends with its newline. */
  lemma {:induction false} StackedExtends(stack: string, messages: seq<string>)
    ensures |Stacked(stack, messages)| >= |stack| && Stacked(stack, messages)[..|stack|] == stack
    ensures messages != [] ==> Stacked(stack, messages)[|Stacked(stack, messages)| - 1] == Newline
    decreases |messages|
  {
    if messages != [] {
      var init := messages[..|messages| - 1];
      StackedExtends(stack, init);
      var s := Stacked(stack, init) + messages[|messages| - 1] + [Newline];
      assert s[..|stack|] == Stacked(stack, init)[..|stack|];
    }
  }

  /** Appending in two batches is appending all of them at once. */
  lemma {:induction false} StackedAppend(stack: string, xs: seq<string>, ys: seq<string>)
    ensures Stacked(Stacked(stack, xs), ys) == Stacked(stack, xs + ys)
    decreases |ys|
  {
    if ys == [] {
      assert xs + ys == xs;
    } else {
      assert (xs + ys)[..|xs + ys| - 1] == xs + ys[..|ys| - 1];
      StackedAppend(stack, xs, ys[..|ys| - 1]);
    }
  }

  class ErrorT {
    var messageStack: string
    var reason: int

    /** The first message is stored as given, with no newline added. */
    constructor (message: string, reason: int := ReasonOther)
      ensures messageStack == message && this.reason == reason
    {
      messageStack := message;
      this.reason := reason;
    }

    /** Overwrites the reason, stacks the message with a newline, and
        returns a copy of the updated object (not the object itself). */
    method Append(message: string, reason: int := ReasonOther) returns (copy: ErrorT)
      modifies this
      ensures this.reason == reason
      ensures messageStack == Stacked(old(messageStack), [message])
      ensures fresh(copy) && copy.messageStack == messageStack && copy.reason == reason
    {
      this.reason := reason;
      messageStack := messageStack + message + [Newline];
      copy := new ErrorT(messageStack, this.reason);
    }

    /** What is written to the stream, and the reason as exit code. */
    method Print() returns (code: int, printed: string)
      ensures code == reason && printed == messageStack
    {
      return reason, messageStack;
    }
  }

  /** `e.append(a).append(b)`: the second message reaches only the copy the
      first call returned, not `e`. */
  method AppendChain(e: ErrorT, a: string, b: string) returns (chained: ErrorT)
    modifies e
    ensures e.messageStack == Stacked(old(e.messageStack), [a]) && e.reason == ReasonOther
    ensures chained != e && chained.messageStack == Stacked(old(e.messageStack), [a, b])
  {
    var first := e.Append(a);
    chained := first.Append(b);
    StackedAppend(old(e.messageStack), [a], [b]);
    assert [a] + [b] == [a, b];
  }

  /** The FILE pointer: null, or an open stream. */
  datatype Pipe = Null | Stream(handle: nat)

  datatype PopenOutcome = Opened(handle: nat) | PopenFailed(reasonText: string)

  /** How pclose ended: it failed itself, or the child exited normally with
      a status, or it ended abnormally (signalled). */
  datatype PcloseOutcome = CloseFailed(reasonText: string) | ExitedNormally(status: int) | Abnormal(reasonText: string)

  datatype Expected<T> = Value(value: T) | Unexpected(error: ErrorT)

  /** The message texts, as structured values. */
  function AlreadyRunningMessage(commandString: string): string
  {
    "Command is already running: \"" + commandString + "\"."
  }

  function PopenFailedMessage(commandString: string, mode: string, reasonText: string): string
  {
    "popen(\"" + commandString + "\", \"" + mode + "\"): " + reasonText + ".\nError running command: \""
      + commandString + "\", type: \"" + mode + "\"\n"
  }

  function CloseFailedMessage(reasonText: string): string
  {
    "Error closing compilation command: " + reasonText
  }

  function AbnormalMessage(reasonText: string): string
  {
    "Compilation command exited abnormally: " + reasonText
  }

  const StartContext: string := "Error starting command."
  const WaitContext: string := "Error wating for command to complete."
  const RunContext: string := "Error running compilation command."
  const NoOriginMessage: string := "Origin file was not provided."

  class Command {
    var running: bool
    var pipe: Pipe
    const commandString: string
    const mode: string

    constructor (commandString: string, mode: string)
      ensures !running && pipe == Null
      ensures this.commandString == commandString && this.mode == mode
    {
      running := false;
      pipe := Null;
      this.commandString := commandString;
      this.mode := mode;
    }

    /** Refuses to start twice. Otherwise it marks the command running
        before calling popen, so a failed popen leaves it marked. */
    method Start(popen: PopenOutcome) returns (r: Expected<Pipe>)
      modifies this
      ensures old(running) ==> running && pipe == old(pipe)
      ensures old(running) ==> (r.Unexpected? && fresh(r.error)
        && r.error.reason == CommandAlreadyRunning && r.error.messageStack == AlreadyRunningMessage(commandString))
      ensures !old(running) ==> running
      ensures !old(running) && popen.Opened? ==> pipe == Stream(popen.handle) && r == Value(pipe)
      ensures !old(running) && popen.PopenFailed? ==> (pipe == Null && r.Unexpected? && fresh(r.error)
        && r.error.reason == ReasonOther && r.error.messageStack == PopenFailedMessage(commandString, mode, popen.reasonText))
    {
      if running {
        var e := new ErrorT(AlreadyRunningMessage(commandString), CommandAlreadyRunning);
        return Unexpected(e);
      }
      running := true;
      match popen {
        case Opened(handle) =>
          pipe := Stream(handle);
          return Value(pipe);
        case PopenFailed(reasonText) =>
          pipe := Null;
          var e := new ErrorT(PopenFailedMessage(commandString, mode, reasonText));
          return Unexpected(e);
      }
    }

    /** Clears the running flag only once pclose succeeded, before looking at
        how the child ended. */
    method Wait(pclose: PcloseOutcome) returns (r: Expected<int>)
      modifies this
      ensures pipe == old(pipe)
      ensures running == (old(running) && pclose.CloseFailed?)
      ensures pclose.ExitedNormally? ==> r == Value(pclose.status)
      ensures pclose.CloseFailed? ==> (r.Unexpected? && fresh(r.error)
        && r.error.reason == ReasonOther && r.error.messageStack == CloseFailedMessage(pclose.reasonText))
      ensures pclose.Abnormal? ==> (r.Unexpected? && fresh(r.error)
        && r.error.reason == ReasonOther && r.error.messageStack == AbnormalMessage(pclose.reasonText))
    {
      match pclose {
        case CloseFailed(reasonText) =>
          var e := new ErrorT(CloseFailedMessage(reasonText));
          return Unexpected(e);
        case ExitedNormally(status) =>
          running := false;
          return Value(status);
        case Abnormal(reasonText) =>
          running := false;
          var e := new ErrorT(AbnormalMessage(reasonText));
          return Unexpected(e);
      }
    }

    /** Start then wait. A start failure keeps its reason under the added
        context line; a wait failure keeps the wait error's reason. */
    method Run(popen: PopenOutcome, pclose: PcloseOutcome) returns (r: Expected<int>)
      modifies this
      ensures old(running) ==> (r.Unexpected? && fresh(r.error) && r.error.reason == CommandAlreadyRunning
        && r.error.messageStack == Stacked(AlreadyRunningMessage(commandString), [StartContext])
        && running && pipe == old(pipe))
      ensures !old(running) && popen.PopenFailed? ==> (r.Unexpected? && fresh(r.error) && r.error.reason == ReasonOther
        && r.error.messageStack == Stacked(PopenFailedMessage(commandString, mode, popen.reasonText), [StartContext])
        && running && pipe == Null)
      ensures !old(running) && popen.Opened? ==> pipe == Stream(popen.handle) && running == pclose.CloseFailed?
      ensures !old(running) && popen.Opened? && pclose.ExitedNormally? ==> r == Value(pclose.status)
      ensures !old(running) && popen.Opened? && pclose.CloseFailed? ==> (r.Unexpected? && fresh(r.error)
        && r.error.reason == ReasonOther
        && r.error.messageStack == Stacked(CloseFailedMessage(pclose.reasonText), [WaitContext]))
      ensures !old(running) && popen.Opened? && pclose.Abnormal? ==> (r.Unexpected? && fresh(r.error)
        && r.error.reason == ReasonOther
        && r.error.messageStack == Stacked(AbnormalMessage(pclose.reasonText), [WaitContext]))
    {
      var started := Start(popen);
      if started.Unexpected? {
        var e := started.error.Append(StartContext, started.error.reason);
        return Unexpected(e);
      }
      var status := Wait(pclose);
      if status.Unexpected? {
        var e := status.error.Append(WaitContext, status.error.reason);
        return Unexpected(e);
      }
      return status;
    }

    /** Run as written: the reason passed with the wait context is read from
        the start result, which at that point holds a stream and no error,
        so the read has no defined value. The result is None exactly when
        that read happens. */
    method RunAsWritten(popen: PopenOutcome, pclose: PcloseOutcome) returns (r: Option<Expected<int>>)
      modifies this
      ensures !old(running) && popen.Opened? && !pclose.ExitedNormally? <==> r.None?
      ensures !old(running) && popen.Opened? && pclose.ExitedNormally? ==> r == Some(Value(pclose.status))
      ensures old(running) || popen.PopenFailed? ==> r.Some? && r.value.Unexpected? && fresh(r.value.error)
    {
      var started := Start(popen);
      if started.Unexpected? {
        var e := started.error.Append(StartContext, started.error.reason);
        return Some(Unexpected(e));
      }
      var status := Wait(pclose);
      if status.Unexpected? {
        // the reason is taken from `started`, which holds a value
        return None;
      }
      return Some(status);
    }
  }

  /** Once popen has failed, the command stays marked running: every later
      start is refused as already running, whatever popen would do. */
  method RestartAfterFailedPopen(c: Command, reasonText: string, later: PopenOutcome) returns (second: Expected<Pipe>)
    requires !c.running
    modifies c
    ensures c.running
    ensures second.Unexpected? && second.error.reason == CommandAlreadyRunning
  {
    var first := c.Start(PopenFailed(reasonText));
    second := c.Start(later);
  }

  /** The last argument after the executable's name, or empty. */
  function OriginFile(argv: seq<string>): (o: string)
    ensures o == "" || (|argv| >= 2 && o in argv[1..])
    ensures |argv| >= 2 ==> o == argv[|argv| - 1]
    ensures |argv| <= 1 ==> o == ""
  {
    if |argv| <= 1 then "" else argv[|argv| - 1]
  }

  /** The driver's observable result: the exit code, what went to standard
      error, and the status reported on standard output (if any). */
  datatype Outcome = Outcome(exitCode: int, stderr: string, reportedStatus: Option<int>)

  /** What main does, given how popen and pclose behave. */
  function MainOutcome(argv: seq<string>, popen: PopenOutcome, pclose: PcloseOutcome): (o: Outcome)
    ensures o.exitCode == 0 <==> OriginFile(argv) != "" && popen.Opened? && pclose.ExitedNormally?
    ensures o.exitCode != 0 ==> o.exitCode == ReasonOther && o.reportedStatus.None?
    ensures o.exitCode == 0 ==> o.reportedStatus == Some(pclose.status)
  {
    var origin := OriginFile(argv);
    var commandString := "g++ " + origin;
    if origin == "" then Outcome(ReasonOther, NoOriginMessage, None)
    else match popen
      case PopenFailed(reasonText) =>
        Outcome(ReasonOther, Stacked(PopenFailedMessage(commandString, "r", reasonText), [StartContext, RunContext]), None)
      case Opened(_) =>
        match pclose
        case ExitedNormally(status) => Outcome(0, "", Some(status))
        case CloseFailed(reasonText) =>
          Outcome(ReasonOther, Stacked(CloseFailedMessage(reasonText), [WaitContext, RunContext]), None)
        case Abnormal(reasonText) =>
          Outcome(ReasonOther, Stacked(AbnormalMessage(reasonText), [WaitContext, RunContext]), None)
  }

  /** program_n::main: the origin is the last argument; without one the
      exit code is 1. The compiler's own status is only reported: any
      normal exit, even a failing one, gives exit code 0. The message for
      an already-running command is never printed, since the command is
      fresh. */
  method ProgramMain(argv: seq<string>, popen: PopenOutcome, pclose: PcloseOutcome) returns (outcome: Outcome, alreadyRunningNoticed: bool)
    ensures outcome == MainOutcome(argv, popen, pclose)
    ensures !alreadyRunningNoticed
  {
    var origin := "";
    var i := 1;
    while i < |argv|
      invariant 1 <= i && (i <= |argv| || i == 1)
      invariant origin == if i == 1 then "" else argv[i - 1]
    {
      origin := argv[i];
      i := i + 1;
    }
    assert origin == OriginFile(argv);
    alreadyRunningNoticed := false;
    if origin == "" {
      var e := new ErrorT(NoOriginMessage);
      var code, printed := e.Print();
      return Outcome(code, printed, None), false;
    }
    var command := new Command("g++ " + origin, "r");
    var status := command.Run(popen, pclose);
    if status.Unexpected? {
      alreadyRunningNoticed := status.error.reason == CommandAlreadyRunning;
      var e := status.error.Append(RunContext);
      var code, printed := e.Print();
      assert [StartContext] + [RunContext] == [StartContext, RunContext];
      assert [WaitContext] + [RunContext] == [WaitContext, RunContext];
      match popen {
        case PopenFailed(_) =>
          StackedAppend(PopenFailedMessage("g++ " + origin, "r", popen.reasonText), [StartContext], [RunContext]);
        case Opened(_) =>
          match pclose {
            case CloseFailed(t) =>
              StackedAppend(CloseFailedMessage(t), [WaitContext], [RunContext]);
            case Abnormal(t) =>
              StackedAppend(AbnormalMessage(t), [WaitContext], [RunContext]);
            case ExitedNormally(_) =>
          }
      }
      return Outcome(code, printed, None), alreadyRunningNoticed;
    }
    return Outcome(0, "", Some(status.value)), false;
  }
}
