/** The Dockerfile parser of noby: physical lines are joined into logical
    lines, each logical line is classified, and the directives ENV, FROM,
    HOST and RUN fill in the parser's state. */
module Dockerfile {
  import opened Optional
  import opened PyStr

  /** A logical line as `_line_parser` returns it: `("#", text, raw)` for a
      comment, `("", "", raw)` for a blank line, `(cmd, args, raw)` for a
      directive. */
  datatype Line = Line(cmd: string, args: string, raw: string)

  /** An entry of `build_commands`: the lower-cased directive, the digest of
      the argument string, and the argument string. */
  datatype BuildCommand = BuildCommand(cmd: string, argsHash: string, args: string)

  /** Unpacking `split(" ", 1)` of a directive line that holds no space
      raises Python's ValueError; the offending logical line is kept. */
  datatype ParseError = MissingArguments(line: string)

  datatype Result<+T> = Success(value: T) | Failure(error: ParseError)

  /** `sha256(args.encode()).hexdigest()`, left uninterpreted. */
  type Digest = string -> string

  /** The four fields of a `DockerfileParser` object, as a value. */
  datatype ParserState = ParserState(
    lines: seq<Line>,
    env: map<string, string>,
    fromImage: Option<string>,
    buildCommands: seq<BuildCommand>)

  /** The fields as `__init__` sets them before parsing. */
  const Initial := ParserState([], map[], None, [])

  // ---------------------------------------------------------------------
  // _yield_lines

  /** A stripped physical line that `_yield_lines` emits on its own: a blank
      or a comment. */
  predicate IsInert(stripped: string) {
    stripped == "" || StartsWith(stripped, '#')
  }

  /** A stripped content line that continues onto the next one. */
  predicate Continues(stripped: string) {
    EndsWith(stripped, '\\')
  }

  /** The logical lines `_yield_lines` yields for the physical lines `raw`
      when `acc` holds the stripped content lines accumulated so far. */
  function YieldFrom(raw: seq<string>, acc: seq<string>): (r: seq<string>)
    ensures |r| <= |raw|
    decreases |raw|
  {
    if raw == [] then []
    else
      var s := Strip(raw[0]);
      if IsInert(s) then [RStrip(raw[0])] + YieldFrom(raw[1..], acc)
      else if Continues(s) then YieldFrom(raw[1..], acc + [s])
      else [JoinLines(acc + [s])] + YieldFrom(raw[1..], [])
  }

  /** The output and accumulator after `_yield_lines` has handled the
      physical line `r`, from output `out` and accumulator `acc`. */
  function YieldStep(r: string, out: seq<string>, acc: seq<string>): (seq<string>, seq<string>) {
    var s := Strip(r);
    if IsInert(s) then (out + [RStrip(r)], acc)
    else if Continues(s) then (out, acc + [s])
    else (out + [JoinLines(acc + [s])], [])
  }

  /** Handling one physical line keeps the output so far followed by the
      output still to come unchanged. */
  lemma YieldFromAt(raw: seq<string>, i: nat, out: seq<string>, acc: seq<string>)
    requires i < |raw|
    ensures var next := YieldStep(raw[i], out, acc);
      out + YieldFrom(raw[i..], acc) == next.0 + YieldFrom(raw[i + 1..], next.1)
  {
    assert raw[i..][0] == raw[i] && raw[i..][1..] == raw[i + 1..];
    var s := Strip(raw[i]);
    if IsInert(s) {
      assert out + ([RStrip(raw[i])] + YieldFrom(raw[i + 1..], acc))
          == (out + [RStrip(raw[i])]) + YieldFrom(raw[i + 1..], acc);
    } else if !Continues(s) {
      assert out + ([JoinLines(acc + [s])] + YieldFrom(raw[i + 1..], []))
          == (out + [JoinLines(acc + [s])]) + YieldFrom(raw[i + 1..], []);
    }
  }

  /** The logical lines of a whole file. */
  function LogicalLines(raw: seq<string>): seq<string> {
    YieldFrom(raw, [])
  }

  // ---------------------------------------------------------------------
  // _line_parser and _populate_env

  /** `_line_parser`: classifies a logical line by its stripped text. */
  function LineParser(s: string): (r: Result<Line>)
    ensures r.Success? ==> r.value.raw == s
    ensures Strip(s) == "" ==> r == Success(Line("", "", s))
    ensures StartsWith(Strip(s), '#') ==> r.Success? && r.value.cmd == "#"
    ensures StartsWith(Strip(s), '#') ==>
      var t := Strip(s);
      exists k :: 1 <= k <= |t| && (forall j :: 0 <= j < k ==> t[j] == '#')
        && (k < |t| ==> t[k] != '#') && r.value.args == Strip(t[k..])
    ensures !IsInert(Strip(s)) ==> (r.Success? <==> ' ' in Strip(s))
    ensures !IsInert(Strip(s)) && r.Success? ==>
      r.value.cmd + " " + r.value.args == Strip(s) && ' ' !in r.value.cmd
    ensures r.Failure? ==> r.error == MissingArguments(s)
  {
    var t := Strip(s);
    if StartsWith(t, '#') then
      var rest := LStripChar(t, '#');
      LStripCharSpec(t, '#');
      assert 1 <= |t| - |rest| <= |t| && t[|t| - |rest|..] == rest;
      Success(Line("#", Strip(rest), s))
    else if t == "" then
      Success(Line("", "", s))
    else
      SplitOnceSpec(t, ' ');
      match SplitOnce(t, ' ')
      case None => Failure(MissingArguments(s))
      case Some(cut) => Success(Line(cut.0, cut.1, s))
  }

  /** `_populate_env`: the name is the text before the first `=`, the value
      is everything after it (the remaining parts re-joined with `=`), or
      empty when there is no `=`. */
  function EnvEntry(rawenv: string): (r: (string, string))
    ensures '=' !in r.0
    ensures '=' in rawenv ==> r.0 + "=" + r.1 == rawenv
    ensures '=' !in rawenv ==> r == (rawenv, "")
  {
    SplitOnceSpec(rawenv, '=');
    match SplitOnce(rawenv, '=')
    case None => (rawenv, "")
    case Some(cut) => cut
  }

  // ---------------------------------------------------------------------
  // _populate_vars and _parse_file

  /** `_populate_vars` on the state `st` for one classified line. */
  function Populate(st: ParserState, line: Line, digest: Digest): (r: ParserState)
    ensures r.lines == st.lines
  {
    if line.cmd == "" then st
    else
      var cmd := Lower(line.cmd);
      if cmd == "env" then
        var entry := EnvEntry(line.args);
        st.(env := st.env[entry.0 := entry.1])
      else if cmd == "host" || cmd == "run" then
        st.(buildCommands := st.buildCommands + [BuildCommand(cmd, digest(line.args), line.args)])
      else if cmd == "from" then
        st.(fromImage := Some(line.args))
      else st
  }

  /** The effect of one iteration of `_parse_file`'s loop once the line
      parsed: append it to `lines`, then populate. */
  function Absorb(st: ParserState, line: Line, digest: Digest): (r: ParserState)
    ensures r.lines == st.lines + [line]
  {
    Populate(st.(lines := st.lines + [line]), line, digest)
  }

  /** The state reached by a run of `_parse_file`'s loop, and the error that
      stopped it, if any. */
  datatype ParseRun = ParseRun(state: ParserState, error: Option<ParseError>)

  /** `_line_parser` applied to every logical line. */
  function Classify(lls: seq<string>): seq<Result<Line>> {
    seq(|lls|, i requires 0 <= i < |lls| => LineParser(lls[i]))
  }

  /** `_parse_file`'s loop over the classified logical lines `parsed`, from
      state `st`: every line that parsed is appended to `lines` in order,
      and the first line that did not parse stops the loop with its error. */
  function ParseLines(st: ParserState, parsed: seq<Result<Line>>, digest: Digest): (run: ParseRun)
    ensures st.lines <= run.state.lines
    ensures |run.state.lines| - |st.lines| <= |parsed|
    ensures forall i :: 0 <= i < |run.state.lines| - |st.lines| ==>
      parsed[i] == Success(run.state.lines[|st.lines| + i])
    ensures run.error.None? <==> |run.state.lines| - |st.lines| == |parsed|
    ensures run.error.Some? ==>
      parsed[|run.state.lines| - |st.lines|] == Failure(run.error.value)
    decreases |parsed|
  {
    if parsed == [] then ParseRun(st, None)
    else
      match parsed[0]
      case Failure(e) => ParseRun(st, Some(e))
      case Success(line) =>
        var next := Absorb(st, line, digest);
        var run := ParseLines(next, parsed[1..], digest);
        var n := |st.lines|;
        assert |next.lines| == n + 1 && next.lines[n] == line;
        assert run.state.lines[n] == line;
        assert forall i :: 1 <= i < |run.state.lines| - n ==> parsed[i] == parsed[1..][i - 1];
        run
  }

  /** Parsing a whole file from the initial state: it stops with an error
      exactly when some logical line is not recorded in `lines`.
      `ParserFacts.ParseRecordsLines` says which lines are recorded. */
  function Parse(raw: seq<string>, digest: Digest): (run: ParseRun)
    ensures |run.state.lines| <= |LogicalLines(raw)|
    ensures run.error.None? <==> |run.state.lines| == |LogicalLines(raw)|
  {
    ParseLines(Initial, Classify(LogicalLines(raw)), digest)
  }

  // ---------------------------------------------------------------------
  // The parser object

  class DockerfileParser {
    var lines: seq<Line>
    var env: map<string, string>
    var fromImage: Option<string>
    var buildCommands: seq<BuildCommand>

    function State(): ParserState
      reads this
    {
      ParserState(lines, env, fromImage, buildCommands)
    }

    /** The field initialisation of `__init__`. */
    constructor ()
      ensures State() == Initial
    {
      lines, env, fromImage, buildCommands := [], map[], None, [];
    }

    /** `_populate_env`: binds the name to the value, overwriting an
        earlier binding; nothing else changes. */
    method PopulateEnv(rawenv: string)
      modifies this
      ensures env == old(env)[EnvEntry(rawenv).0 := EnvEntry(rawenv).1]
      ensures lines == old(lines) && fromImage == old(fromImage)
      ensures buildCommands == old(buildCommands)
    {
      var entry := EnvEntry(rawenv);
      env := env[entry.0 := entry.1];
    }

    /** `_populate_vars`. */
    method PopulateVars(cmd: string, args: string, raw: string, digest: Digest)
      modifies this
      ensures State() == Populate(old(State()), Line(cmd, args, raw), digest)
    {
      if cmd == "" {
        return;
      }
      var c := Lower(cmd);
      if c == "env" {
        PopulateEnv(args);
      } else if c == "host" || c == "run" {
        buildCommands := buildCommands + [BuildCommand(c, digest(args), args)];
      } else if c == "from" {
        fromImage := Some(args);
      }
    }

    /** `_yield_lines`, with the generator's output collected in order. */
    method YieldLines(raw: seq<string>) returns (out: seq<string>)
      ensures out == LogicalLines(raw)
    {
      out := [];
      var currentLine: seq<string> := [];
      var i := 0;
      while i < |raw|
        invariant 0 <= i <= |raw|
        invariant out + YieldFrom(raw[i..], currentLine) == LogicalLines(raw)
      {
        YieldFromAt(raw, i, out, currentLine);
        ghost var next := YieldStep(raw[i], out, currentLine);
        var s := Strip(raw[i]);
        if StartsWith(s, '#') || s == "" {
          out := out + [RStrip(raw[i])];
        } else {
          currentLine := currentLine + [s];
          if !EndsWith(s, '\\') {
            out := out + [JoinLines(currentLine)];
            currentLine := [];
          }
        }
        assert (out, currentLine) == next;
        i := i + 1;
      }
    }

    /** `_parse_file` without opening the file: `raw` are its lines as
        `readlines()` returns them. On an error the lines before it have
        been absorbed. */
    method ParseFile(raw: seq<string>, digest: Digest) returns (err: Option<ParseError>)
      modifies this
      ensures State() == ParseLines(old(State()), Classify(LogicalLines(raw)), digest).state
      ensures err == ParseLines(old(State()), Classify(LogicalLines(raw)), digest).error
    {
      var logical := YieldLines(raw);
      var i := 0;
      while i < |logical|
        invariant 0 <= i <= |logical|
        invariant ParseLines(State(), Classify(logical)[i..], digest)
               == ParseLines(old(State()), Classify(logical), digest)
      {
        var line := LineParser(logical[i]);
        assert Classify(logical)[i..][0] == line;
        assert Classify(logical)[i..][1..] == Classify(logical)[i + 1..];
        if line.Failure? {
          return Some(line.error);
        }
        lines := lines + [line.value];
        PopulateVars(line.value.cmd, line.value.args, line.value.raw, digest);
        i := i + 1;
      }
      err := None;
    }
  }

  /** `DockerfileParser(dockerfile)`: a parser object for the lines `raw`,
      or the error its constructor raises. */
  method Load(raw: seq<string>, digest: Digest) returns (r: Result<DockerfileParser>)
    ensures r.Success? <==> Parse(raw, digest).error.None?
    ensures r.Success? ==> fresh(r.value) && r.value.State() == Parse(raw, digest).state
    ensures r.Failure? ==> Parse(raw, digest).error == Some(r.error)
  {
    var p := new DockerfileParser();
    var err := p.ParseFile(raw, digest);
    if err.Some? {
      return Failure(err.value);
    }
    return Success(p);
  }
}
