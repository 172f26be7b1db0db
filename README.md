# noby: the Dockerfile parser and the build-step loop, in Dafny

noby is a small image builder on btrfs. It reads a Dockerfile and turns
every `HOST` or `RUN` step into a read-only btrfs subvolume under its
runtime directory. The subvolume is named by the SHA-256 digest of the
step's argument string. A subvolume that already exists is reused. Anything
else is built in a working subvolume `<digest>-init`, which is a snapshot of
the previous step's subvolume (or empty for the first step). The working
subvolume is then labelled with extended attributes, snapshotted read-only
under the digest, and deleted.

This project models two parts of `noby.py`:

- **The Dockerfile parser** (`DockerfileParser`):
  - `_yield_lines` joins physical lines into logical lines: backslash continuations, with comments and blank lines passed through.
  - `_line_parser` classifies each logical line.
  - `_populate_env` and `_populate_vars` fill in `env`, `from_image` and `build_commands`.
  - `_parse_file` runs the loop over the lines.
- **The step loop of `build`**, over an abstract store of subvolumes.

Modules:

- `PyStr` (`pystr.dfy`): the Python `str` operations the parser uses (`strip`, `rstrip`, `lstrip("#")`, `split(sep, 1)`, `"\n".join`, `lower`), with lemmas saying what each one computes.
- `Dockerfile` (`dockerfile.dfy`):
  - the parser as pure functions (`YieldFrom`, `LineParser`, `EnvEntry`, `Populate`, `ParseLines`, `Parse`);
  - the `DockerfileParser` class, whose methods update its four fields in place and are proved equal to those functions.
- `ParserFacts` (`parser_facts.dfy`):
  - `build_commands`, `env` and `from_image` are reference functions of the recorded lines (in order; later ENV wins; last FROM wins);
  - comments, blanks and other directives (COPY among them) change nothing else.
- `LogicalLineFacts` (`logical_lines.dfy`):
  - comment and blank lines come out on their own, in place;
  - the other lines come out as their backslash-continued runs, joined with newlines;
  - a run left open at the end of the file is dropped.
- `Volumes` (`volumes.dfy`):
  - the runtime directory as a `map` from subvolume name to `Volume` (read-only flag, root attributes, files);
  - pure functions for each btrfs or xattr operation;
  - the mutable `VolumeStore` class whose methods are those operations, each reporting failure where the real call fails.
- `Builder` (`builder.dfy`):
  - the pure specification of one step (`RunStep`), of the loop (`RunSteps`) and of the whole command (`BuildSpec`);
  - the imperative `Step` and `Build` methods over a `VolumeStore`, proved equal to them.
- `BuildFacts` (`build_facts.dfy`):
  - what a cache hit, a fresh step and a failed step leave behind;
  - that only a failing command stops a build;
  - what a finished build leaves, and that rebuilding reuses every step.

Two things are parameters rather than code:

- `digest: string -> string` stands for `sha256(args.encode()).hexdigest()`.
- `exec: (Backend, string, env, Files) -> Completion` is the effect of a command on the files of the subvolume it runs in: the files as the command leaves them, and whether it exited with status zero. A failing command keeps what it wrote before it exited. The backends are the host shell for HOST and `systemd-nspawn` for RUN.

### Particulars of this version of noby

- The step key is the digest of the argument string alone. It is not chained with the parent or with earlier steps. Two steps with the same arguments share one subvolume.
- A cache hit does not read or compare `user.parrent_hash`; it is reused whatever the current parent. `BuildFacts.CacheHit` states this.
- Only HOST and RUN steps are built; a `COPY` line is parsed and then ignored. Every step is looked up in the cache, and the result is not tagged.
- A HOST command runs with the working subvolume as its directory. Its environment is `TARGET` and the Dockerfile's ENV bindings (which win), and nothing else.
- The attribute is spelled `user.parrent_hash`.
- A base other than `scratch` stops the build. So does `FROM` missing altogether.

## Model

| member | source | states |
|---|---|---|
| PyStr.LStripSpec | noby.py:43 | `str.lstrip()` drops exactly the leading whitespace (Python's `isspace` set) and leaves a suffix of the input |
| PyStr.RStripSpec | noby.py:61 | `str.rstrip()` drops exactly the trailing whitespace and leaves a prefix of the input |
| PyStr.StripSpec | noby.py:43 | `strip()` is empty iff the text is all whitespace; otherwise it neither starts nor ends with whitespace and starts where `lstrip()` does |
| PyStr.LStripCharSpec | noby.py:46 | `lstrip("#")` drops exactly the leading run of `#` |
| PyStr.SplitOnceSpec | noby.py:52 | `split(sep, 1)` gives one part iff `sep` is absent; otherwise the two parts rejoined with `sep` are the input and the first holds no `sep` |
| PyStr.JoinLinesFirst | noby.py:65 | a newline join of parts starts with its first part's first character |
| PyStr.JoinLinesSnoc | noby.py:65 | `"\n".join` of no parts is empty, of one part is that part, and a further part is added after a newline, which fixes the join completely |
| PyStr.JoinLinesLast | noby.py:64-65 | a newline join ends with its last part's last character |
| PyStr.LowerMatches | noby.py:25-32 | `cmd.lower()` equals a lower-case keyword such as `env`, `host`, `run` or `from` exactly when `cmd` spells it in any mix of cases |
| Dockerfile.YieldFrom | noby.py:55-66 | the generator yields at most one logical line per physical line; its meaning is given by `LogicalLineFacts.ContentGrouping`, `InertPassThrough`, `InertInPlace` and `OpenContinuationDropped` |
| Dockerfile.YieldFromAt | noby.py:58-66 | one iteration of the `_yield_lines` loop: an inert line is yielded right-stripped, a backslash-ended line is accumulated, and any other line flushes the accumulator |
| Dockerfile.LineParser | noby.py:42-53 | blank gives `("", "", raw)`; a comment gives `"#"` and the text after the leading `#`s, stripped; a directive gives cmd and args that rejoin with a space to the stripped line, with cmd holding no space; a directive with no space fails with its line |
| Dockerfile.EnvEntry | noby.py:18-20 | the name holds no `=` and name, `=`, value rejoin to the argument; with no `=` the value is empty |
| Dockerfile.Populate | noby.py:22-33 | `_populate_vars` leaves `lines` alone |
| Dockerfile.Absorb | noby.py:37-40 | one loop iteration appends the line to `lines` |
| Dockerfile.ParseLines | noby.py:35-40 | the loop appends exactly the lines that parsed, in order; it stops at the first line that fails to parse, and that line's error is returned |
| Dockerfile.Parse | noby.py:11-16 | constructing the parser fails exactly when some logical line is left unrecorded; `ParserFacts.ParseRecordsLines`, `ParseStopsAt` and `ParseConsistent` say what is recorded |
| Dockerfile.DockerfileParser.constructor | noby.py:11-15 | the four fields start empty |
| Dockerfile.DockerfileParser.PopulateEnv | noby.py:18-20 | `env` gains the binding of `EnvEntry`, nothing else changes |
| Dockerfile.DockerfileParser.PopulateVars | noby.py:22-33 | the fields become `Populate` of the old ones |
| Dockerfile.DockerfileParser.YieldLines | noby.py:55-66 | the loop with its `current_line` accumulator yields `LogicalLines(raw)` |
| Dockerfile.DockerfileParser.ParseFile | noby.py:35-40 | the fields and the error are those of `ParseLines` from the old fields |
| Dockerfile.Load | noby.py:11-16 | construction succeeds iff parsing hits no error, and then the new parser holds the parsed state |
| ParserFacts.Commands | noby.py:29-30 | every build command is a lower-cased `host` or `run` whose digest is the digest of its arguments |
| ParserFacts.AbsorbCases | noby.py:22-33 | per line: only HOST/RUN append a build command, ENV adds its binding, FROM sets the base |
| ParserFacts.AbsorbConsistent | noby.py:37-40 | one iteration keeps the fields equal to the reference functions of `lines` |
| ParserFacts.ParseLinesConsistent | noby.py:35-40 | the whole loop keeps that agreement |
| ParserFacts.ParseConsistent | noby.py:22-40 | after parsing, `build_commands` are the HOST/RUN lines in order, `env` the ENV bindings and `from_image` the last FROM |
| ParserFacts.ParseRecordsLines | noby.py:35-40 | `lines` holds the logical lines that parsed, in file order, each as `_line_parser` returned it |
| ParserFacts.ParseStopsAt | noby.py:37-38 | parsing that fails returns the error of the first logical line that does not parse |
| ParserFacts.CommandsAppend | noby.py:29-30 | build commands of appended lines are appended in order |
| ParserFacts.EnvOfAppend | noby.py:26-27 | a later ENV binding overrides an earlier one |
| ParserFacts.FromOfAppend | noby.py:32-33 | a later FROM replaces an earlier one |
| ParserFacts.EnvLastWins | noby.py:18-20 | a name is bound to the value of the last ENV line that defines it |
| ParserFacts.EnvNotDefined | noby.py:18-20 | a name no ENV line defines is unbound |
| ParserFacts.FromLastWins | noby.py:32-33 | `from_image` is the argument of the last FROM line |
| ParserFacts.FromNone | noby.py:14 | without FROM, `from_image` stays unset |
| ParserFacts.IgnoredLines | noby.py:23-33 | comments, blanks and other directives (e.g. COPY) change only `lines` |
| ParserFacts.CommentedEnvIgnored | tests/test_dockerfile_parser.py:11 | a commented-out ENV line parses as a comment and binds nothing |
| ParserFacts.EnvEntryExamples | noby.py:19-20 | `A=b=c` binds `A` to `b=c`, and `A` binds `A` to the empty string |
| LogicalLineFacts.ContentRaw | noby.py:59-63 | the non-inert physical lines, stripped, are non-empty and start with neither whitespace nor `#` |
| LogicalLineFacts.JoinEach | noby.py:65 | each run is newline-joined |
| LogicalLineFacts.GroupsTerminated | noby.py:63-66 | every run is ended by its last line only: all earlier lines end with a backslash, the last does not |
| LogicalLineFacts.GroupsCover | noby.py:63-66 | the runs followed by the run still open are exactly the content lines, in order |
| LogicalLineFacts.LeftoverContinues | noby.py:63-64 | the run still open at the end is made only of backslash-ended lines |
| LogicalLineFacts.GroupsSpec | noby.py:63-66 | the runs cover a prefix of the content lines; each run is ended by its last line only; what is left over is all continued |
| LogicalLineFacts.PendingIsLeftover | noby.py:56-66 | what `current_line` holds after some physical lines is the run left open by their content lines |
| LogicalLineFacts.YieldFirst | noby.py:58-66 | the generator handles the first physical line, then continues with the rest from the new `current_line` |
| LogicalLineFacts.YieldSplit | noby.py:58-66 | cutting the physical lines anywhere cuts the output there, the lines after the cut continuing from what `current_line` holds at the cut |
| LogicalLineFacts.InertFirst | noby.py:60-62 | a comment or blank first line is yielded right-stripped at once and leaves `current_line` as it was |
| LogicalLineFacts.InertInPlace | noby.py:60-62 | a comment or blank physical line comes out right-stripped in its own place: after what the lines before it yield and before what the lines after it yield, even inside a continuation |
| LogicalLineFacts.LStripPrefix | noby.py:59 | a prefix of a line whose first non-whitespace character it contains left-strips to the same text from that character on |
| LogicalLineFacts.StripOfRStrip | noby.py:61 | a right-stripped comment or blank line is still one when parsed |
| LogicalLineFacts.JoinedIsContent | noby.py:65 | a joined run is parsed as a directive, never as a comment or blank |
| LogicalLineFacts.InertPassThrough | noby.py:59-62 | each comment or blank physical line comes out right-stripped, in order, even inside a continuation, and nothing else comes out as one |
| LogicalLineFacts.ContentGrouping | noby.py:59-66 | the directive lines that come out are exactly the newline-joined runs, with comments inside a continuation neither ending nor resetting it |
| LogicalLineFacts.JoinedTerminated | noby.py:64-65 | a run ended by a line without a backslash joins to a line without a trailing backslash |
| LogicalLineFacts.EmittedAreTerminated | noby.py:64-65 | no directive line that comes out ends with a backslash |
| LogicalLineFacts.GroupsPieces | noby.py:63 | runs consist of stripped content lines |
| LogicalLineFacts.OpenContinuationDropped | noby.py:63-66 | when every content line continues, no directive comes out, only the comments and blanks |
| LogicalLineFacts.NoRunEnded | noby.py:64 | continued lines alone never end a run |
| Volumes.Created | noby.py:110 | `btrfs subvolume create` adds a writable, empty subvolume and changes nothing else |
| Volumes.Snapshotted | noby.py:126 | a snapshot copies the source's files and root attributes, is read-only exactly with `-r`, and changes nothing else |
| Volumes.Deleted | noby.py:127 | `btrfs subvolume delete` removes just that subvolume |
| Volumes.WithAttr | noby.py:125 | `setxattr` sets one root attribute of one writable subvolume |
| Volumes.WithoutAttr | noby.py:122 | `removexattr` removes one present attribute and keeps every other one |
| Volumes.WithFiles | noby.py:112-117 | a command rewrites only the files of the subvolume it runs in |
| Volumes.VolumeStore.constructor | noby.py:78 | the store starts as the given runtime directory |
| Volumes.VolumeStore.Exists | noby.py:98 | existence is membership in the store |
| Volumes.VolumeStore.Create | noby.py:110 | fails iff the name is taken; otherwise the store becomes `Created` |
| Volumes.VolumeStore.Snapshot | noby.py:126 | fails iff the source is missing or the destination is taken (a simplification, see Left out); otherwise the store becomes `Snapshotted` |
| Volumes.VolumeStore.Delete | noby.py:127 | fails iff the subvolume is missing; otherwise the store becomes `Deleted` |
| Volumes.VolumeStore.SetAttr | noby.py:125 | fails iff the subvolume is missing or read-only |
| Volumes.VolumeStore.RemoveAttr | noby.py:121-124 | fails also when the attribute is absent; a failure changes nothing |
| Volumes.VolumeStore.Execute | noby.py:112-117 | the subvolume gets the files the command leaves, whether or not it succeeds; the call fails iff the subvolume is missing or the command exits non-zero (`check=True`) |
| Builder.CmdAttr | noby.py:120-125 | `user.cmd.<cmd>` is never `user.parrent_hash`, and is one of the two cleared names for `host`/`run` |
| Builder.WorkingName | noby.py:93 | the working subvolume is the digest followed by `-init` |
| Builder.HostEnv | noby.py:95-96 | a HOST command sees every ENV binding, plus `TARGET` = the working path unless ENV sets `TARGET` |
| Builder.RunCommand | noby.py:112-117 | a directive other than `host`/`run` runs nothing |
| Builder.SealedAttrs | noby.py:119-125 | after labelling, `user.parrent_hash` is the parent; `user.cmd.<cmd>` holds the arguments; the other `user.cmd.*` is gone; every other attribute is kept |
| Builder.Base | noby.py:107-110 | the working subvolume starts writable: empty without a parent, otherwise with the parent's files and attributes |
| Builder.RunStep | noby.py:93-128 | one iteration succeeds iff the step's subvolume is there afterwards and touches no name but the digest and the working subvolume; `BuildFacts.CacheHit`, `StepSucceeds`, `StepBuilt` and `StepFailedState` give the rest |
| Builder.RunSteps | noby.py:90-128 | a failing step is one of the steps, and a loop that finishes leaves `parrent_hash` at the last step's digest; `BuildFacts.StepsAbort` says the loop stops at the first failing step, and `StepsFinish`, `StepsStop`, `StepsFrame` and `AllCached` give the rest |
| Builder.BuildSpec | noby.py:80-128 | only a build that reaches the loop changes the store, and the step it fails on is a parsed step; `BuildFacts.BuildStopsEarly`, `BuildFinished`, `BuildFailed` and `RebuildIsCached` give the rest |
| Builder.ClearCmdAttrs | noby.py:120-124 | the `removexattr` loop over both `user.cmd.*` names removes both, an absent one being no error |
| Builder.Label | noby.py:119-125 | the three xattr calls and the `removexattr` loop over both `user.cmd.*` names leave exactly `SealedAttrs` on the working subvolume |
| Builder.Prepare | noby.py:103-110 | a stale working subvolume is deleted first; the new one is created or snapshotted; fails (stale one gone) iff the parent's subvolume is missing |
| Builder.RunIn | noby.py:112-117 | HOST runs through the host shell with `HostEnv`, RUN in the container with the ENV bindings; the working subvolume keeps what the command wrote, and the call fails iff the command does |
| Builder.Seal | noby.py:126-127 | the working subvolume becomes a read-only subvolume under the digest and is deleted |
| Builder.Step | noby.py:90-128 | one iteration of the loop through the store's calls equals `RunStep` |
| Builder.Build | noby.py:80-128 | the whole `build` over the store equals `BuildSpec`: parse, stop early on no steps or no `scratch` base, then the loop |
| BuildFacts.CacheHit | noby.py:98-101 | a cache hit changes nothing and succeeds whatever the parent and whatever the commands would do |
| BuildFacts.StepSucceeds | noby.py:98-117 | a step succeeds iff it is cached, or its parent's subvolume is there and its command succeeds |
| BuildFacts.StepBuilt | noby.py:103-128 | after a miss: the working subvolume is gone; the sealed one is read-only; it holds the command's result on an empty subvolume or the parent's snapshot; it records the previous parent and its directive; nothing else changed |
| BuildFacts.StepFailedState | noby.py:103-117 | after a failed step the stale working subvolume is gone; either the parent's subvolume was missing, or the command failed on the fresh working subvolume, which remains holding the files the command left; nothing else changed |
| BuildFacts.HexDigestsDoNotCollide | noby.py:93 | hexadecimal digests never equal a `-init` name |
| BuildFacts.StepsFrame | noby.py:90-128 | the loop changes no subvolume other than the steps' own and their working ones |
| BuildFacts.StepsKeep | noby.py:90-128 | a subvolume that is no step's working subvolume survives the loop |
| BuildFacts.FirstStepAdvances | noby.py:126-128 | a first step that succeeds leaves its subvolume in the store, distinct from every later working subvolume, as a valid parent for the rest |
| BuildFacts.StepsFinish | noby.py:90-128 | a finished loop leaves every step's subvolume and ends at the last step's digest |
| BuildFacts.StepsAbort | noby.py:90-128 | a stopped loop is the steps before the failing one run to the end, then the failing step run once on what they left, its outcome being the loop's: the earlier steps stay sealed or cached, no later step runs, and the failing step's digest is absent |
| BuildFacts.StepsStop | noby.py:105-117 | a stopped loop stopped on a failing HOST or RUN command, whose working subvolume is left writable, holding what that command left |
| BuildFacts.AllCached | noby.py:98-101 | when every step is cached, the loop changes nothing and ends at the last digest |
| BuildFacts.BuildStopsEarly | noby.py:80-88 | a parse error, no steps, or a base other than `scratch` ends the build with the store untouched, the step check coming first |
| BuildFacts.BuildFinished | noby.py:90-128 | a finished build has a subvolume for every step, ends at the last step's digest and touches nothing else |
| BuildFacts.BuildFailed | noby.py:80-128 | a stopped build stopped on a parsed HOST or RUN step whose command failed, leaving its working subvolume holding what the command left and its digest absent, after the parsed steps before it ran to the end (`StopsAt`) |
| BuildFacts.StepsRerun | noby.py:98-101 | rerunning a finished loop reuses every step |
| BuildFacts.RebuildIsCached | noby.py:98-101 | building the same Dockerfile again changes nothing, runs no command and ends at the same digest |
| BuildFacts.ParsedStepsDoNotCollide | noby.py:29-30 | with hexadecimal digests, parsed steps never collide with a working subvolume |

## Left out

- File handling (noby.py:70-78, 36): resolving the context, Dockerfile and runtime paths, the `is_file` check and the file open. Parsing takes the file's physical lines (`readlines()`), and the runtime path is a plain string.
- SHA-256: the digest is a function parameter. `ParsedStepsDoNotCollide` and `HexDigestsDoNotCollide` need only that the digest contains no `-`, which holds for `hexdigest()`.
- The processes run (`subprocess.run` of `btrfs`, the host shell and `systemd-nspawn`): each is a store operation or the `exec` parameter. A command affects only the files of the subvolume it runs in. A HOST command that writes elsewhere on the host, or creates the sealed subvolume itself, is not modelled.
- btrfs failure modes other than a missing source, a taken name for `create` or a missing subvolume (permissions, a non-btrfs file system, a full disk). Deleting a read-only subvolume is allowed, as it is for root.
- Volumes.VolumeStore.Snapshot: a destination that already exists is modelled as a failure. `btrfs subvolume snapshot` instead puts the snapshot inside an existing destination directory. The loop never reaches this case: noby.py:98-105 make sure the destination is absent before each snapshot, and `Builder.Prepare` and `Builder.Seal` call `Snapshot` only on an absent destination.
- `Path.exists()` is true for any file, not only a subvolume. The model checks only for subvolumes.
- `print` output (noby.py:82, 91, 99, 104, 113, 116) and the `parseargs`/`main` command line (noby.py:131-174).
- The `raise NotImplemented(...)` for a base other than `scratch` (noby.py:88) actually raises `TypeError`, since `NotImplemented` is not callable. Either way the build stops before touching the store; the model returns `BaseNotScratch`.
- PyStr.Lower: lower-cases ASCII letters only. Python's `lower()` is full Unicode. The only other characters that lower-case to text containing ASCII letters are KELVIN SIGN (to `k`) and LATIN CAPITAL LETTER I WITH DOT ABOVE (to `i` and a combining dot). Neither `k` nor `i` occurs in `env`, `from`, `host` or `run`, so every decision the parser makes on a directive name, and every recorded directive, is the same.
- Extended-attribute values and file contents are strings, not bytes.
- Two builds running at once on one runtime directory, and a build interrupted between two calls of a step. The second matters only through the stale `-init` subvolume it leaves. The next build deletes it (`Prepare`), unless the interruption came after the read-only snapshot of noby.py:126. Then the step is a cache hit at noby.py:98-101, which skips the delete, and the stale `-init` stays (`BuildFacts.CacheHit` says the store is unchanged).
- The `test_load` example of tests/test_dockerfile_parser.py is not evaluated on its concrete text. Its content follows from `ParseConsistent`, `EnvLastWins`, `EnvNotDefined` (for every other name) and `CommentedEnvIgnored`, given that every line of it parses (`ParseRecordsLines`). The test hands an in-memory buffer to the `open` of noby.py:36; file handling is not part of this model.
- tests/test_image_storage.py and setup.py are not part of this model.
