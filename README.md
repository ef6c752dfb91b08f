# cromple, modelled in Dafny

cromple is an incremental build driver for C and C++. It finds the source
files of a directory. It asks the compiler which headers each source
includes. It recompiles the sources whose object file is missing or older
than one of those headers, and then links every object into one output.
This project models the sequential logic of that driver and proves what it
promises:

- `paths.dfy` (module `Paths`): the three `std::filesystem::path` operations
  the driver uses (`filename()`, `operator/`, `extension()`), on POSIX-style
  paths.
- `wrappers.dfy` (module `Wrappers`): the `Option` type shared by the
  argument parser and the older driver.
- `diagnostics.dfy` (module `Diagnostics`): what the driver's error object
  receives, as a sequence of structured messages. It also holds the outcome
  of a child process run and the quoted command string used in messages.
- `make_rule.dfy` (module `MakeRule`): the parser for the make rule the
  compiler prints in dependency mode (`-MM -MT ""`). It is the loop of
  `pgm::compiler::get_make_prerequisites`, together with a character-level
  specification and its properties.
- `units.dfy` (module `Units`): the translation unit value and
  `source_to_object`.
- `compiler.dfy` (module `Compilers`): the `pgm::compiler` class. It builds
  the compile, link and dependency command lines and composes their errors.
  A process run is an oracle from command line to outcome.
- `translation_unit.dfy` (module `TranslationUnits`): `object_is_outdated`,
  `find_changed` and `find_all`. The filesystem is a set of paths `exists()`
  sees plus a map from path to modification time or stat failure. A
  directory listing is a sequence of entries.
- `arguments.dfy` (module `CommandLine`): `pgm::arguments::parse`.
- `legacy_driver.dfy` (module `LegacyDriver`): the older single-file driver.
  It has `error_t` (a message stack plus the latest reason), `command_t` (a
  running flag around `popen`/`pclose`) and its `main`.

Imperative source code is modelled as methods with loops. Each such method
is proved equal to a specification function, and the properties are proved
as lemmas about that function. Classes whose fields change (`ErrorT`,
`Command`) are Dafny classes.

The error object `pgm::error` is declared in a header (`error.hpp`) that is
not part of this model. The model assumes only what its uses show. Appending
adds a message, and the object counts as set once anything was appended.
Chained appends (`error.append(a).append(b)`) are taken to reach the same
object. Every operation is assumed to receive an error that is not yet set.

Three behaviours of the code are easy to misread, and the model follows
the code in each:

- src/compiler.cpp:139 tests for a backslash before line 144 looks at the
  escaping flag. So an escaped backslash only re-arms escaping, and the
  character after it is dropped unless it is a space. This happens although
  the comment at line 146 says an escaped backslash is kept
  (`EscapedEscapeDropsNext`, `RulePrerequisites`).
- An unescaped newline always pushes the pending name, even when it is
  empty (src/compiler.cpp:162-166, `TrailingSpacePushesEmptyName`).
- The source file's own modification time is compared only if the compiler
  lists the source among the prerequisites (src/translation_unit.cpp:37-55,
  `SourceTimeOnlyThroughPrerequisites`).

## Model

| member | source | states |
|---|---|---|
| Paths.Filename | src/translation_unit.cpp:10 | `filename()`: the characters after the last separator, never longer than the path |
| Paths.Extension | src/translation_unit.cpp:105 | `extension()`: a non-empty extension starts with a dot (its full shape is `ExtensionShape`) |
| Paths.FilenameShape | src/translation_unit.cpp:10 | the filename holds no separator, ends the path, and is preceded by a separator when it is not the whole path |
| Paths.AsDirectory | src/translation_unit.cpp:10 | the directory part of `operator/`: empty stays empty, a path ending in a separator is kept, any other gains exactly one separator; the result is empty or ends with a separator |
| Paths.Join | src/translation_unit.cpp:10 | `dir / name` is `name` after `dir` written as a directory: nothing is put before `name` when `dir` is empty, no second separator when `dir` already ends with one, and exactly one separator otherwise |
| Paths.FilenameOfJoin | src/translation_unit.cpp:10 | joining a separator-free non-empty name onto any directory gives a path whose filename is that name |
| Paths.FilenameAfterSeparator | src/translation_unit.cpp:10 | the filename of a directory part ending in a separator followed by a separator-free name is that name |
| Paths.LastIndexOfSpec | src/translation_unit.cpp:105 | the index found holds the character and no later position does; -1 means it does not occur |
| Paths.ExtensionNonEmpty | src/translation_unit.cpp:105 | a filename with a dot after its first character (other than "..") has a non-empty extension: the text from its last dot |
| Paths.ExtensionShape | src/translation_unit.cpp:105 | a non-empty extension starts with its only dot and is a proper suffix of the filename |
| Diagnostics.JoinCommand | src/compiler.cpp:48-52 | the loop builds the quoted command, every part preceded by one space |
| Diagnostics.CommandStringAppend | src/compiler.cpp:49-52 | the quoted form of a concatenation is the concatenation of the quoted forms |
| Diagnostics.CommandStringLength | src/compiler.cpp:49-52 | the quoted command is as long as all parts plus one space each |
| MakeRule.Scan | src/compiler.cpp:136-185 | the character-level specification of the parsing loop from any state; names already pushed stay in front of the result |
| MakeRule.RulePrerequisites | src/compiler.cpp:136-185 | the prerequisites of a non-empty rule, scanned from its second character; none holds a backslash, so the keep-escaped-backslash branch at 147-149 never runs |
| MakeRule.ParseMakeRule | src/compiler.cpp:130-185 | the parsing loop, starting one character into a non-empty rule, returns exactly the names of the character-level specification |
| MakeRule.ScanHasNoEscapes | src/compiler.cpp:139-158 | from any state, no name the parser pushes holds a backslash |
| MakeRule.EscapedEscapeDropsNext | src/compiler.cpp:139-150 | two backslashes followed by a character other than a backslash behave as one backslash: that character is dropped unless it is a space |
| MakeRule.EscapedSpaceKeepsDelimiting | src/compiler.cpp:152-177 | an escaped space at the start of a name does not leave the between-names state, so a following unescaped space does not end the name |
| MakeRule.ScanPushesEmptyOnlyAtNewline | src/compiler.cpp:162-185 | runs of unescaped spaces never push an empty name; only the newline's final push can be empty |
| MakeRule.OnlyLastPrerequisiteMayBeEmpty | src/compiler.cpp:162-185 | every prerequisite but the last is non-empty, and without a newline none is empty |
| MakeRule.TrailingSpacePushesEmptyName | src/compiler.cpp:162-166 | `": a \n"` gives `["a", ""]`: a space before the newline makes the newline push an empty name |
| MakeRule.StopsAtFirstNewline | src/compiler.cpp:139-166 | on the first unescaped newline the parser pushes the pending name and ignores everything after it; escaped newlines before it (continuation lines) are read past |
| MakeRule.IgnoresTextAfterNewline | src/compiler.cpp:136-166 | appending any text after a rule whose last character is its first unescaped newline, with any number of escaped newlines before it, does not change its prerequisites |
| MakeRule.ContinuationLineExample | src/compiler.cpp:139-166 | the two-line rule `": a.h \<newline> b.h<newline>"` parses to `["a.h", "b.h"]`, and text after its final newline is ignored |
| MakeRule.ScanEscapedName | src/compiler.cpp:144-179 | reading a name with each space escaped appends that name to the pending one |
| MakeRule.NewlineTerminates | src/compiler.cpp:162-166 | a newline pushes the pending name whatever follows |
| MakeRule.ContinuationAtEndTerminates | src/compiler.cpp:139-185 | an escaped newline at the end of the text is dropped and the pending name is pushed at the end of input |
| MakeRule.ScanJoined | src/compiler.cpp:136-185 | escaped printable names joined by single spaces and followed by a terminator are read back in order |
| MakeRule.RoundTrip | src/compiler.cpp:136-185 | names that are non-empty, not all spaces and free of backslashes and newlines come back unchanged from `":" + escaped names joined by spaces + "\n"`, whatever follows |
| MakeRule.ContinuationExample | src/compiler.cpp:136-185 | `" foo.h bar\ baz.h qux.h\<newline>"` parses to `["foo.h", "bar baz.h", "qux.h"]` |
| Units.NewUnit | src/translation_unit.cpp:6 | the unit keeps the source path, and its object path is the object directory as a directory (one separator after it unless it is empty or already ends with one) followed by the source's filename plus ".o" |
| Units.SourceToObject | src/translation_unit.cpp:9-11 | the object path is exactly the object directory as a directory (one separator after it unless it is empty or already ends with one) followed by the source's filename plus ".o", so that name is its filename |
| Units.ObjectPathsCollideIffFilenamesDo | src/translation_unit.cpp:9-11 | two sources get the same object path exactly when their filenames are equal, whatever their directories |
| Units.ObjectPathExample | src/translation_unit.cpp:9-11 | `main.cpp` with object directory `obj` compiles to `obj/main.cpp.o` |
| Units.ObjectPathInEmptyDirectory | src/translation_unit.cpp:9-11 | with an empty object directory `main.cpp` compiles to `main.cpp.o`, a relative path |
| Units.ObjectPathUnderSeparator | src/translation_unit.cpp:9-11 | with object directory `obj/` `main.cpp` compiles to `obj/main.cpp.o`, with no doubled separator |
| Compilers.CompileCommand | src/compiler.cpp:18-24 | the compile command is the stored parts followed by `-c <source> -o <object>` |
| Compilers.ObjectPaths | src/compiler.cpp:61-63 | one object path per unit, in unit order |
| Compilers.LinkCommand | src/compiler.cpp:58-63 | the link command is the stored parts, `-o <out>`, then each unit's object path in order; its length is parts + 2 + units |
| Compilers.DependencyCommand | src/compiler.cpp:99-100 | the dependency command is the stored parts followed by `<file> -MM -MT ""` |
| Compilers.RunErrors | src/compiler.cpp:27-43 | a run adds nothing exactly when the child exited with 0; a non-zero exit adds its stderr text and then the exit status |
| Compilers.CompileErrors | src/compiler.cpp:27-53 | compiling fails exactly when the run did not exit with 0; the failure ends with the line naming source, object and full command |
| Compilers.LinkErrors | src/compiler.cpp:65-91 | linking fails exactly when the run did not exit with 0; the failure ends with the line naming the output, the object count and the full command |
| Compilers.MakePrerequisites | src/compiler.cpp:95-191 | success exactly on exit 0, with the parsed names, none holding a backslash; any failure gives no names and ends with the line naming the file; a non-zero exit adds stderr, then status and command |
| Compilers.Compiler.constructor | src/compiler.cpp:10-14 | the stored command parts are the executable followed by the arguments |
| Compilers.Compiler.Compile | src/compiler.cpp:17-54 | appends exactly the errors of the compile command's outcome |
| Compilers.AppendObjectPaths | src/compiler.cpp:60-62 | the loop pushes every unit's object path onto the command, in unit order |
| Compilers.Compiler.Link | src/compiler.cpp:57-92 | runs exactly the link command and appends exactly the errors of its outcome |
| Compilers.Compiler.GetMakePrerequisites | src/compiler.cpp:95-192 | returns the names and errors of the dependency command's outcome |
| TranslationUnits.NewerPrerequisite | src/translation_unit.cpp:43-55 | a failure is reported as not outdated, with the stat failure of one listed prerequisite and the line naming it; a clean "not outdated" means every prerequisite was read and none is newer |
| TranslationUnits.Staleness | src/translation_unit.cpp:14-69 | any failure answers "not outdated" and ends with the line naming the source; a check without error saw a missing object, or a readable object and a successful dependency run; a clean "not outdated" read every listed prerequisite |
| TranslationUnits.ObjectIsOutdated | src/translation_unit.cpp:14-69 | the early-return loop gives exactly the specified verdict and errors |
| TranslationUnits.MissingObjectIsOutdated | src/translation_unit.cpp:18-30 | a missing object, seen by `exists()` or as ENOENT, makes the unit outdated with no error and without depending on the compiler run |
| TranslationUnits.NewerPrerequisiteIff | src/translation_unit.cpp:43-59 | with readable prerequisites, outdated exactly when one is strictly newer than the object; equal times are up to date |
| TranslationUnits.FirstNewerPrerequisiteWins | src/translation_unit.cpp:43-55 | the first newer prerequisite answers "outdated" at once; later ones, even unreadable, are never looked at |
| TranslationUnits.FirstUnreadablePrerequisiteFails | src/translation_unit.cpp:43-50 | an unreadable prerequisite reached before any newer one gives "not outdated" with its stat failure and the prerequisite line, not "missing, so outdated" |
| TranslationUnits.StalenessFailures | src/translation_unit.cpp:24-68 | the exact verdict of each failure: an object stat failure other than ENOENT, a failed dependency run, an unreadable prerequisite; each is "not outdated" with the source line last |
| TranslationUnits.OutdatedIffNewerPrerequisite | src/translation_unit.cpp:37-59 | with a readable object time T and readable listed prerequisites, the unit is outdated exactly when a listed prerequisite is newer than T |
| TranslationUnits.NewerPrerequisiteIgnoresUnlisted | src/translation_unit.cpp:43-55 | the time of a path that is not listed does not affect the scan |
| TranslationUnits.SourceTimeOnlyThroughPrerequisites | src/translation_unit.cpp:37-59 | when the compiler does not list the source, the source's own time never affects the verdict |
| TranslationUnits.ChangedUnits | src/translation_unit.cpp:133-150 | the result is drawn from the given units, no longer than them, and any error ends with the find-changed line; only the units reached before the first failure need to be checkable |
| TranslationUnits.FindChanged | src/translation_unit.cpp:133-150 | the loop returns exactly the specified units and errors |
| TranslationUnits.FindChangedStopsAtFirstError | src/translation_unit.cpp:136-142 | when unit k's check is the first to fail, the result is the outdated units before k and k's errors, whatever follows k (nothing is asked of the later units) |
| TranslationUnits.FindChangedWithoutErrors | src/translation_unit.cpp:136-149 | without failures the result is the outdated units in their original order |
| TranslationUnits.NothingChangedAfterCompleteBuild | src/translation_unit.cpp:133-150 | once every object is at least as new as all its listed prerequisites, nothing is found to rebuild |
| TranslationUnits.SourceEntries | src/translation_unit.cpp:86-123 | the kept entries are no more than the listed ones |
| TranslationUnits.UnitsFor | src/translation_unit.cpp:122 | one unit per kept entry, in order, each made with `source_to_object` |
| TranslationUnits.Discover | src/translation_unit.cpp:72-130 | an error exactly when the directory cannot be iterated, and then no units |
| TranslationUnits.HasSourceExtension | src/translation_unit.cpp:96-115 | the loop accepts exactly the seven allowed suffixes |
| TranslationUnits.FindAll | src/translation_unit.cpp:72-130 | returns exactly the specified units and errors |
| TranslationUnits.SourceEntriesMembers | src/translation_unit.cpp:86-123 | an entry is kept exactly when it is listed, is not a directory and has an allowed suffix |
| TranslationUnits.SourceEntriesAppend | src/translation_unit.cpp:86-123 | discovery keeps iteration order |
| TranslationUnits.EntryWithOneDot | src/translation_unit.cpp:105-115 | a file whose only dot starts its suffix is a source exactly when that suffix is allowed |
| TranslationUnits.ExtensionOfName | src/translation_unit.cpp:105 | the extension of a separator-free name whose last dot lies past its start (and that is not "..") is the text from that dot |
| TranslationUnits.CppFileIsSource | src/translation_unit.cpp:96-115 | `a.cpp` is a source |
| TranslationUnits.MultiDotFileIsSource | src/translation_unit.cpp:105-115 | `a.b.cpp` is a source: only the last dot counts |
| TranslationUnits.TextFileIsNotSource | src/translation_unit.cpp:96-115 | `b.txt` is not a source |
| TranslationUnits.HeaderIsNotSource | src/translation_unit.cpp:96-115 | `c.h` is not a source |
| TranslationUnits.MarkdownIsNotSource | src/translation_unit.cpp:96-115 | `readme.md` is not a source |
| TranslationUnits.UpperCaseSuffixIsNotSource | src/translation_unit.cpp:96-115 | `D.CPP` is not a source: the comparison is case-sensitive |
| TranslationUnits.ExtensionFilterExample | src/translation_unit.cpp:86-123 | of `a.cpp`, `b.txt`, `c.h`, `readme.md` and `D.CPP` only `a.cpp` is kept |
| CommandLine.FlagSetting | src/arguments.cpp:15-21 | every value flag starts with a dash |
| CommandLine.Store | src/arguments.cpp:31-36 | storing a value sets that one setting and leaves the others, the forwarded list and help as they were |
| CommandLine.Step | src/arguments.cpp:28-57 | one loop iteration: a pending setting receives the argument and nothing stays pending; the forwarded list is unchanged or gains exactly this argument |
| CommandLine.Read | src/arguments.cpp:27-58 | the state after reading the arguments in order; no more arguments are forwarded than were read |
| CommandLine.ParseArguments | src/arguments.cpp:5-66 | `parse`: the settings after the arguments that follow the executable's name; the name itself is never forwarded |
| CommandLine.Parse | src/arguments.cpp:5-66 | the loop over the arguments after the executable's name gives exactly the specified settings |
| CommandLine.ReadAppend | src/arguments.cpp:27-58 | reading two runs of arguments is reading the second from the state the first left |
| CommandLine.NoFlagsKeepsDefaults | src/arguments.cpp:10-58 | without recognised flags all settings keep their defaults and every argument is forwarded in order |
| CommandLine.NoArgumentsGivesDefaults | src/arguments.cpp:10-27 | with only the executable's name the result is source "src", objects "obj", out "a.out", compiler "/usr/bin/g++", nothing forwarded, no help |
| CommandLine.ForwardsEverythingUnrecognised | src/arguments.cpp:27-57 | without recognised flags the forwarded list is exactly the arguments after the executable's name |
| CommandLine.ValueFlagTakesNextArgument | src/arguments.cpp:31-47 | a value flag takes the next argument verbatim, even a flag, and changes nothing else |
| CommandLine.NonValueArgumentsKeepSettings | src/arguments.cpp:31-57 | arguments that are not value flags never change a setting |
| CommandLine.OtherArgumentsKeepSetting | src/arguments.cpp:31-57 | arguments that never name a setting's flag, read while that setting is not pending, leave it unchanged; other value flags only retarget the pending value |
| CommandLine.LastValueWins | src/arguments.cpp:31-36 | a setting keeps the last value given to its flag, whatever other flags, values and compiler arguments follow |
| CommandLine.UnrecognisedIsForwarded | src/arguments.cpp:39-57 | an argument that is none of the seven recognised strings, read with nothing pending, is appended to the forwarded list and changes nothing else |
| CommandLine.TrailingValueFlagIsIgnored | src/arguments.cpp:24-36 | a value flag as the last argument is dropped without error and its setting keeps its value |
| CommandLine.RecognisedStartsWithDash | src/arguments.cpp:15-52 | all seven recognised strings start with a dash |
| CommandLine.ForwardedNeverRecognised | src/arguments.cpp:39-57 | the forwarded list never holds one of the seven recognised strings |
| CommandLine.ForwardedInOrder | src/arguments.cpp:55-57 | the forwarded list is a subsequence of the arguments, in their order |
| CommandLine.HelpFlagSetsHelp | src/arguments.cpp:49-52 | a help flag sets help and is not forwarded |
| LegacyDriver.Stacked | src/main.cpp:54 | the message stack after `message_stack += message + "\n"` for each message in order; each adds at least its newline |
| LegacyDriver.StackedExtends | src/main.cpp:52-56 | appending keeps the earlier stack in front, and each appended message ends with a newline |
| LegacyDriver.StackedAppend | src/main.cpp:52-56 | appending in two batches is appending all messages at once |
| LegacyDriver.ErrorT.constructor | src/main.cpp:48 | the first message is stored without a newline; the reason defaults to other (1) |
| LegacyDriver.ErrorT.Append | src/main.cpp:52-56 | overwrites the reason (default 1), stacks the message with a newline and returns a fresh copy |
| LegacyDriver.ErrorT.Print | src/main.cpp:60-63 | prints the stack and returns the reason |
| LegacyDriver.AppendChain | src/main.cpp:52-56 | in `e.append(a).append(b)` only the returned copy receives `b`; `e` has `a` but not `b` |
| LegacyDriver.Command.constructor | src/main.cpp:79 | a new command is not running and has a null pipe |
| LegacyDriver.Command.Start | src/main.cpp:83-98 | refuses a running command with reason 2 and changes nothing; otherwise marks it running before popen, so a failed popen leaves it running |
| LegacyDriver.Command.Wait | src/main.cpp:101-124 | clears running only after pclose succeeds; an abnormal end clears it and fails; a pclose failure leaves it set |
| LegacyDriver.Command.Run | src/main.cpp:127-137 | start failures keep their reason under the start context line; wait failures keep the wait error's reason under the wait context line |
| LegacyDriver.Command.RunAsWritten | src/main.cpp:132-135 | the wait-failure path reads the error of a start result that holds a value, exactly when popen opened and the child did not exit normally |
| LegacyDriver.RestartAfterFailedPopen | src/main.cpp:84-96 | after a failed popen every later start is refused as already running |
| LegacyDriver.OriginFile | src/main.cpp:141-154 | the origin is the last argument after the executable's name, or empty when there is none |
| LegacyDriver.MainOutcome | src/main.cpp:140-172 | exit code 0 exactly when an origin was given, popen opened and the child exited normally (any status); otherwise 1 |
| LegacyDriver.ProgramMain | src/main.cpp:140-172 | the origin is the last argument; the result is the specified outcome, and with the corrected `run` the already-running notice is never printed |

## Left out

- Process creation, pipes, reading stdout and stderr and wait-status decoding (`src/process.cpp`, `src/process.hpp`) are not part of this model. A run is an oracle from the command line to "spawn failed", "wait failed" or "exited with status, stdout, stderr". A failed stderr or stdout read is not modelled.
- The wrapper in `src/command.cpp` and `src/command.hpp` is not part of this model.
- `error.hpp` is not part of this model. Messages are structured values, not formatted text. The `ctime` text of the object time is kept as the raw time value.
- The exact message text of the legacy driver's `strerror(errno)` is a parameter of the popen and pclose outcomes.
- `exists()` throwing, and the directory iterator failing during iteration rather than at construction, are not modelled.
- TranslationUnits.FindAll: `entry.is_directory()` at src/translation_unit.cpp:88 is called without an error code and outside the `try` at lines 78-83. A status failure other than "not found" (a symlink loop, a target in an unreadable directory) throws out of `find_all` with no message appended. The model reads `Entry.isDirectory` as a plain bool, so `FindAll` and `Discover` never fail that way.
- Timestamps are integers on one clock. The file clock's resolution is not modelled.
- Paths are POSIX-style strings. Root names, trailing "." components and `path` normalisation are not modelled. `extension()` is modelled for filenames: no extension for ".", "..", a dot-file or a name without a dot.
- Compilers.MakePrerequisites: requires that a successful dependency run printed at least one character. The parser starts one character in, and on empty output the source's behaviour is undefined.
- TranslationUnits.Staleness: has the same requirement, only when the dependency run is reached. `find_changed` asks it only of the units it reaches before the first failure.
- Every operation receives an error object that is not yet set. The code tests `if (error)`, which would also see an error set before the call.
- The orchestration in the newer driver (discovery, then staleness, then compile and link in order) is not among the modelled files.
- The legacy `main` prints "Compiler exited with status" to standard output. The model returns that status as a value instead of the text.
- The "ur dumb" notice in the legacy `main` is modelled as a flag that is proved never set.
- LegacyDriver.ProgramMain: runs the corrected `Command.Run`, not `Command.RunAsWritten`. As written, a wait failure makes src/main.cpp:134 read an undefined reason, which src/main.cpp:163 then compares with 2; the model does not capture that the notice could be printed on that path. The exit code is 1 on that path either way, because the final `append` resets the reason to 1.

## Findings

| source | as written | input that shows it | evidently intended | confidence | as-written member | corrected member |
|---|---|---|---|---|---|---|
| src/main.cpp:134 | on a wait failure the reason passed with the context line is `pipe.error().reason`, but `pipe` holds a stream there, so reading its error is undefined | popen opens the pipe, then pclose fails or the child is signalled | `status.error().reason`, the wait error's own reason, as line 130 does for start failures | not executed | LegacyDriver.Command.RunAsWritten | LegacyDriver.Command.Run |
