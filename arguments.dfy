/** The command line of the build driver. Four flags take the next argument
    as their value, three ask for help, and everything else is forwarded to
    the compiler untouched. */
module CommandLine {
  import opened Paths
  import opened Wrappers

  /** The four settings a value flag can retarget the pending value to. */
  datatype Setting = SourceDirectory | ObjectDirectory | OutFile | CompilerPath

  datatype Arguments = Arguments(
    sourceDirectory: Path,
    objectDirectory: Path,
    outFile: Path,
    compiler: string,
    compilerArguments: seq<string>,
    help: bool)

  const DefaultSourceDirectory: Path := "src"
  const DefaultObjectDirectory: Path := "obj"
  const DefaultOutFile: Path := "a.out"
  const DefaultCompiler: string := "/usr/bin/g++"

  /** The settings before any argument is read. */
  function Defaults(): Arguments
  {
    Arguments(DefaultSourceDirectory, DefaultObjectDirectory, DefaultOutFile, DefaultCompiler, [], false)
  }

  /** The setting a value flag points to, if `arg` is one. */
  function FlagSetting(arg: string): (s: Option<Setting>)
    ensures s.Some? ==> |arg| > 0 && arg[0] == '-'
  {
    if arg == "--source" then Some(SourceDirectory)
    else if arg == "--objects" then Some(ObjectDirectory)
    else if arg == "-o" then Some(OutFile)
    else if arg == "--compiler" then Some(CompilerPath)
    else None
  }

  predicate IsHelpFlag(arg: string)
  {
    arg == "--help" || arg == "-h" || arg == "-?"
  }

  /** One of the seven strings the parser recognises. */
  predicate Recognised(arg: string)
  {
    FlagSetting(arg).Some? || IsHelpFlag(arg)
  }

  /** The test of the first character: an empty argument has none (its
      first character is the terminating null), so it is not a dash. */
  predicate StartsWithDash(arg: string)
  {
    |arg| > 0 && arg[0] == '-'
  }

  function Value(a: Arguments, s: Setting): string
  {
    match s
    case SourceDirectory => a.sourceDirectory
    case ObjectDirectory => a.objectDirectory
    case OutFile => a.outFile
    case CompilerPath => a.compiler
  }

  function Store(a: Arguments, s: Setting, v: string): (r: Arguments)
    ensures Value(r, s) == v
    ensures forall t :: t != s ==> Value(r, t) == Value(a, t)
    ensures r.compilerArguments == a.compilerArguments && r.help == a.help
  {
    match s
    case SourceDirectory => a.(sourceDirectory := v)
    case ObjectDirectory => a.(objectDirectory := v)
    case OutFile => a.(outFile := v)
    case CompilerPath => a.(compiler := v)
  }

  /** The parser's state between two arguments: where the next argument
      goes (if a value flag was just read) and the settings so far. */
  datatype State = State(pending: Option<Setting>, settings: Arguments)

  function Step(st: State, arg: string): (r: State)
    ensures st.pending.Some? ==> r.pending.None? && Value(r.settings, st.pending.value) == arg
    ensures r.settings.compilerArguments == st.settings.compilerArguments
         || r.settings.compilerArguments == st.settings.compilerArguments + [arg]
  {
    if st.pending.Some? then State(None, Store(st.settings, st.pending.value, arg))
    else if StartsWithDash(arg) && FlagSetting(arg).Some? then State(FlagSetting(arg), st.settings)
    else if StartsWithDash(arg) && IsHelpFlag(arg) then State(None, st.settings.(help := true))
    else State(None, st.settings.(compilerArguments := st.settings.compilerArguments + [arg]))
  }

  /** The state after reading `args` in order from the initial one. */
  function Read(args: seq<string>): (st: State)
    ensures |st.settings.compilerArguments| <= |args|
  {
    if args == [] then State(None, Defaults())
    else Step(Read(args[..|args| - 1]), args[|args| - 1])
  }

  /** The arguments after the executable's own name. */
  function UserArguments(argv: seq<string>): seq<string>
  {
    if |argv| <= 1 then [] else argv[1..]
  }

  /** pgm::arguments::parse: a value flag still pending at the end is
      dropped, leaving its setting as it was. */
  function ParseArguments(argv: seq<string>): (a: Arguments)
    ensures |a.compilerArguments| <= |UserArguments(argv)|
  {
    Read(UserArguments(argv)).settings
  }

  method Parse(argv: seq<string>) returns (arguments: Arguments)
    ensures arguments == ParseArguments(argv)
  {
    var sourceDirectory := DefaultSourceDirectory;
    var objectDirectory := DefaultObjectDirectory;
    var outFile := DefaultOutFile;
    var compiler := DefaultCompiler;
    var compilerArguments: seq<string> := [];
    var help := false;
    var pending: Option<Setting> := None;
    var i := 1;
    while i < |argv|
      invariant 1 <= i <= |argv| || (|argv| == 0 && i == 1)
      invariant Read(if |argv| == 0 then [] else argv[1..i])
        == State(pending, Arguments(sourceDirectory, objectDirectory, outFile, compiler, compilerArguments, help))
    {
      assert argv[1..i + 1][..i - 1] == argv[1..i];
      var arg := argv[i];
      i := i + 1;
      if pending.Some? {
        match pending.value {
          case SourceDirectory => sourceDirectory := arg;
          case ObjectDirectory => objectDirectory := arg;
          case OutFile => outFile := arg;
          case CompilerPath => compiler := arg;
        }
        pending := None;
        continue;
      }
      if |arg| > 0 && arg[0] == '-' {
        var flag := FlagSetting(arg);
        if flag.Some? {
          pending := flag;
          continue;
        }
        if arg == "--help" || arg == "-h" || arg == "-?" {
          help := true;
          continue;
        }
      }
      compilerArguments := compilerArguments + [arg];
    }
    assert |argv| > 1 ==> argv[1..i] == argv[1..];
    arguments := Arguments(sourceDirectory, objectDirectory, outFile, compiler, compilerArguments, help);
  }

  // ---------------------------------------------------------------------
  // What parsing promises

  /** Reading arguments in two runs is reading the second run from the state
      the first left. */
  function ReadFrom(st: State, args: seq<string>): State
  {
    if args == [] then st else Step(ReadFrom(st, args[..|args| - 1]), args[|args| - 1])
  }

  lemma {:induction false} ReadAppend(xs: seq<string>, ys: seq<string>)
    ensures Read(xs + ys) == ReadFrom(Read(xs), ys)
    decreases |ys|
  {
    if ys == [] {
      assert xs + ys == xs;
    } else {
      assert (xs + ys)[..|xs + ys| - 1] == xs + ys[..|ys| - 1];
      ReadAppend(xs, ys[..|ys| - 1]);
    }
  }

  /** Without recognised flags every argument is forwarded in order and
      every setting keeps its default; the executable's name is never
      forwarded. */
  lemma {:induction false} NoFlagsKeepsDefaults(args: seq<string>)
    requires forall k :: 0 <= k < |args| ==> !Recognised(args[k])
    ensures Read(args) == State(None, Defaults().(compilerArguments := args))
    decreases |args|
  {
    if args != [] {
      NoFlagsKeepsDefaults(args[..|args| - 1]);
      assert args[..|args| - 1] + [args[|args| - 1]] == args;
    }
  }

  lemma NoArgumentsGivesDefaults(argv: seq<string>)
    requires |argv| <= 1
    ensures ParseArguments(argv) == Defaults()
  {
  }

  lemma ForwardsEverythingUnrecognised(argv: seq<string>)
    requires forall k :: 1 <= k < |argv| ==> !Recognised(argv[k])
    ensures ParseArguments(argv) == Defaults().(compilerArguments := UserArguments(argv))
  {
    var args := UserArguments(argv);
    forall k | 0 <= k < |args|
      ensures !Recognised(args[k])
    {
      assert args[k] == argv[k + 1];
    }
    NoFlagsKeepsDefaults(args);
  }

  /** A value flag read with nothing pending takes the next argument
      verbatim, even one that is itself a flag, and changes nothing else. */
  lemma ValueFlagTakesNextArgument(pre: seq<string>, flag: string, v: string)
    requires Read(pre).pending.None?
    requires FlagSetting(flag).Some?
    ensures var after := Read(pre + [flag, v]);
      && after.pending.None?
      && Value(after.settings, FlagSetting(flag).value) == v
      && (forall t :: t != FlagSetting(flag).value ==> Value(after.settings, t) == Value(Read(pre).settings, t))
      && after.settings.compilerArguments == Read(pre).settings.compilerArguments
      && after.settings.help == Read(pre).settings.help
  {
    assert (pre + [flag, v])[..|pre| + 1] == pre + [flag];
    assert (pre + [flag])[..|pre|] == pre;
  }

  /** Arguments that are not value flags, read with nothing pending, never
      touch a setting: so the last value given to a flag is the one kept. */
  lemma {:induction false} NonValueArgumentsKeepSettings(st: State, args: seq<string>)
    requires st.pending.None?
    requires forall k :: 0 <= k < |args| ==> FlagSetting(args[k]).None?
    ensures ReadFrom(st, args).pending.None?
    ensures forall t :: Value(ReadFrom(st, args).settings, t) == Value(st.settings, t)
    decreases |args|
  {
    if args != [] {
      NonValueArgumentsKeepSettings(st, args[..|args| - 1]);
    }
  }

  /** Arguments that never name the flag of setting `s`, read from a state
      not waiting for a value of `s`, leave `s` as it was: another value flag
      only retargets the pending value to its own setting. */
  lemma {:induction false} OtherArgumentsKeepSetting(st: State, s: Setting, args: seq<string>)
    requires st.pending != Some(s)
    requires forall k :: 0 <= k < |args| ==> FlagSetting(args[k]) != Some(s)
    ensures ReadFrom(st, args).pending != Some(s)
    ensures Value(ReadFrom(st, args).settings, s) == Value(st.settings, s)
    decreases |args|
  {
    if args != [] {
      OtherArgumentsKeepSetting(st, s, args[..|args| - 1]);
    }
  }

  /** A setting keeps the last value given to its flag, whatever other
      flags, values and compiler arguments follow. */
  lemma LastValueWins(pre: seq<string>, flag: string, v: string, post: seq<string>)
    requires Read(pre).pending.None?
    requires FlagSetting(flag).Some?
    requires forall k :: 0 <= k < |post| ==> FlagSetting(post[k]) != FlagSetting(flag)
    ensures Value(Read(pre + [flag, v] + post).settings, FlagSetting(flag).value) == v
  {
    ValueFlagTakesNextArgument(pre, flag, v);
    ReadAppend(pre + [flag, v], post);
    OtherArgumentsKeepSetting(Read(pre + [flag, v]), FlagSetting(flag).value, post);
  }

  /** An argument that is none of the seven recognised strings, read with
      nothing pending, is appended to the forwarded list and changes
      nothing else. */
  lemma UnrecognisedIsForwarded(pre: seq<string>, x: string)
    requires Read(pre).pending.None?
    requires !Recognised(x)
    ensures Read(pre + [x]) == State(None, Read(pre).settings.(compilerArguments := Read(pre).settings.compilerArguments + [x]))
  {
    assert (pre + [x])[..|pre|] == pre;
  }

  /** A value flag as the very last argument is dropped without error: its
      setting keeps the value it had. */
  lemma TrailingValueFlagIsIgnored(argv: seq<string>, flag: string)
    requires |argv| >= 1
    requires Read(UserArguments(argv)).pending.None?
    requires FlagSetting(flag).Some?
    ensures ParseArguments(argv + [flag]) == ParseArguments(argv)
  {
    assert UserArguments(argv + [flag]) == UserArguments(argv) + [flag];
    assert (UserArguments(argv) + [flag])[..|UserArguments(argv)|] == UserArguments(argv);
  }

  /** `xs` can be obtained from `ys` by deleting elements. */
  predicate Subsequence(xs: seq<string>, ys: seq<string>)
  {
    xs == [] ||
    (ys != [] &&
      ((xs[|xs| - 1] == ys[|ys| - 1] && Subsequence(xs[..|xs| - 1], ys[..|ys| - 1]))
       || Subsequence(xs, ys[..|ys| - 1])))
  }

  /** Every recognised string starts with a dash. */
  lemma RecognisedStartsWithDash(arg: string)
    requires Recognised(arg)
    ensures StartsWithDash(arg)
  {
  }

  /** The forwarded arguments never include one of the seven recognised
      strings. */
  lemma {:induction false} ForwardedNeverRecognised(args: seq<string>)
    ensures forall k :: 0 <= k < |Read(args).settings.compilerArguments| ==> !Recognised(Read(args).settings.compilerArguments[k])
    decreases |args|
  {
    if args != [] {
      var init := args[..|args| - 1];
      var arg := args[|args| - 1];
      ForwardedNeverRecognised(init);
      if Recognised(arg) {
        RecognisedStartsWithDash(arg);
      }
    }
  }

  /** The forwarded arguments keep their order: they are a subsequence of
      the arguments read. */
  lemma {:induction false} ForwardedInOrder(args: seq<string>)
    ensures Subsequence(Read(args).settings.compilerArguments, args)
    decreases |args|
  {
    if args != [] {
      var init := args[..|args| - 1];
      var arg := args[|args| - 1];
      ForwardedInOrder(init);
      var before := Read(init).settings.compilerArguments;
      var after := Read(args).settings.compilerArguments;
      assert after == before || after == before + [arg];
      if after == before + [arg] {
        assert after[..|after| - 1] == before;
      }
    }
  }

  /** Help flags read with nothing pending set `help` and are not forwarded. */
  lemma HelpFlagSetsHelp(pre: seq<string>, flag: string)
    requires Read(pre).pending.None?
    requires IsHelpFlag(flag)
    ensures Read(pre + [flag]).settings.help
    ensures Read(pre + [flag]).settings.compilerArguments == Read(pre).settings.compilerArguments
  {
    assert (pre + [flag])[..|pre|] == pre;
  }
}
