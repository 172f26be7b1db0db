/** What the parser's state means: `build_commands`, `env` and `from_image`
    are functions of the classified lines seen so far, whatever the order
    in which the loop built them. */
module ParserFacts {
  import opened Optional
  import opened PyStr
  import opened Dockerfile

  /** A HOST or RUN directive (names are case-insensitive). */
  predicate IsStep(l: Line) {
    l.cmd != "" && (Lower(l.cmd) == "host" || Lower(l.cmd) == "run")
  }

  /** An ENV directive whose name is `name`. */
  predicate DefinesEnv(l: Line, name: string) {
    l.cmd != "" && Lower(l.cmd) == "env" && EnvEntry(l.args).0 == name
  }

  /** A FROM directive. */
  predicate IsFrom(l: Line) {
    l.cmd != "" && Lower(l.cmd) == "from"
  }

  /** The build steps of `ls`: its HOST and RUN lines in source order, each
      as (lower-cased directive, digest of the arguments, arguments). */
  function Commands(ls: seq<Line>, digest: Digest): (cs: seq<BuildCommand>)
    ensures |cs| <= |ls|
    ensures forall k :: 0 <= k < |cs| ==>
      (cs[k].cmd == "host" || cs[k].cmd == "run") && cs[k].argsHash == digest(cs[k].args)
  {
    if ls == [] then []
    else
      (if IsStep(ls[0]) then [BuildCommand(Lower(ls[0].cmd), digest(ls[0].args), ls[0].args)] else [])
      + Commands(ls[1..], digest)
  }

  /** The binding a single line contributes to `env`. */
  function EnvBinding(l: Line): map<string, string> {
    if l.cmd != "" && Lower(l.cmd) == "env" then
      var entry := EnvEntry(l.args);
      map[entry.0 := entry.1]
    else map[]
  }

  /** The environment of `ls`: every ENV binding, a later one overriding an
      earlier one for the same name. */
  function EnvOf(ls: seq<Line>): map<string, string> {
    if ls == [] then map[] else EnvBinding(ls[0]) + EnvOf(ls[1..])
  }

  /** The argument of the last FROM line of `ls`, if any. */
  function FromOf(ls: seq<Line>): Option<string> {
    if ls == [] then None
    else match FromOf(ls[1..])
      case Some(a) => Some(a)
      case None => if IsFrom(ls[0]) then Some(ls[0].args) else None
  }

  /** The parser's fields agree with the lines it has recorded. */
  predicate Consistent(st: ParserState, digest: Digest) {
    && st.buildCommands == Commands(st.lines, digest)
    && st.env == EnvOf(st.lines)
    && st.fromImage == FromOf(st.lines)
  }

  lemma {:induction false} CommandsAppend(ls: seq<Line>, l: Line, digest: Digest)
    ensures Commands(ls + [l], digest) == Commands(ls, digest) + Commands([l], digest)
    decreases |ls|
  {
    if ls == [] {
      assert ls + [l] == [l];
    } else {
      assert (ls + [l])[1..] == ls[1..] + [l];
      CommandsAppend(ls[1..], l, digest);
    }
  }

  lemma UnionAssoc(a: map<string, string>, b: map<string, string>, c: map<string, string>)
    ensures a + (b + c) == (a + b) + c
  {
  }

  lemma {:induction false} EnvOfAppend(ls: seq<Line>, l: Line)
    ensures EnvOf(ls + [l]) == EnvOf(ls) + EnvBinding(l)
    decreases |ls|
  {
    if ls == [] {
      assert ls + [l] == [l];
      assert EnvOf([l]) == EnvBinding(l) + map[];
    } else {
      assert (ls + [l])[1..] == ls[1..] + [l];
      EnvOfAppend(ls[1..], l);
      UnionAssoc(EnvBinding(ls[0]), EnvOf(ls[1..]), EnvBinding(l));
    }
  }

  lemma {:induction false} FromOfAppend(ls: seq<Line>, l: Line)
    ensures FromOf(ls + [l]) == if IsFrom(l) then Some(l.args) else FromOf(ls)
    decreases |ls|
  {
    if ls == [] {
      assert ls + [l] == [l];
    } else {
      assert (ls + [l])[1..] == ls[1..] + [l];
      FromOfAppend(ls[1..], l);
    }
  }

  /** One iteration of `_parse_file` keeps the fields in agreement with the
      recorded lines. */
  lemma AbsorbConsistent(st: ParserState, line: Line, digest: Digest)
    requires Consistent(st, digest)
    ensures Consistent(Absorb(st, line, digest), digest)
  {
    var ls := st.lines + [line];
    var next := Absorb(st, line, digest);
    CommandsAppend(st.lines, line, digest);
    EnvOfAppend(st.lines, line);
    FromOfAppend(st.lines, line);
    AbsorbCases(st, line, digest);
    assert next.buildCommands == Commands(ls, digest);
    assert next.env == EnvOf(ls);
    assert next.fromImage == FromOf(ls);
  }

  /** What one absorbed line contributes to each field. */
  lemma AbsorbCases(st: ParserState, line: Line, digest: Digest)
    ensures Absorb(st, line, digest).lines == st.lines + [line]
    ensures Absorb(st, line, digest).buildCommands == st.buildCommands + Commands([line], digest)
    ensures Absorb(st, line, digest).env == st.env + EnvBinding(line)
    ensures Absorb(st, line, digest).fromImage == if IsFrom(line) then Some(line.args) else st.fromImage
  {
    var c := Lower(line.cmd);
    assert Commands([line], digest) == (if IsStep(line) then [BuildCommand(c, digest(line.args), line.args)] else []) + Commands([], digest);
    if line.cmd == "" || (c != "env" && c != "host" && c != "run" && c != "from") {
      assert EnvBinding(line) == map[];
    } else if c == "env" {
    } else if c == "host" || c == "run" {
      assert EnvBinding(line) == map[];
    } else {
      assert EnvBinding(line) == map[];
    }
  }

  lemma {:induction false} ParseLinesConsistent(st: ParserState, parsed: seq<Result<Line>>, digest: Digest)
    requires Consistent(st, digest)
    ensures Consistent(ParseLines(st, parsed, digest).state, digest)
    decreases |parsed|
  {
    if parsed != [] && parsed[0].Success? {
      AbsorbConsistent(st, parsed[0].value, digest);
      ParseLinesConsistent(Absorb(st, parsed[0].value, digest), parsed[1..], digest);
    }
  }

  /** After parsing (up to an error, if one stopped it), `build_commands`
      holds exactly the HOST and RUN lines in source order, `env` the ENV
      bindings with later ones winning, and `from_image` the last FROM. */
  lemma ParseConsistent(raw: seq<string>, digest: Digest)
    ensures Consistent(Parse(raw, digest).state, digest)
  {
    ParseLinesConsistent(Initial, Classify(LogicalLines(raw)), digest);
  }

  /** Parsing records the logical lines that parse, in order, up to the
      first that does not. */
  lemma ParseRecordsLines(raw: seq<string>, digest: Digest)
    ensures var run := Parse(raw, digest);
      forall i :: 0 <= i < |run.state.lines| ==>
        LineParser(LogicalLines(raw)[i]) == Success(run.state.lines[i])
  {
    var lls := LogicalLines(raw);
    var parsed := Classify(lls);
    var run := ParseLines(Initial, parsed, digest);
    assert |Initial.lines| == 0;
    forall i | 0 <= i < |run.state.lines| ensures LineParser(lls[i]) == Success(run.state.lines[i]) {
      assert parsed[0 + i] == Success(run.state.lines[|Initial.lines| + i]);
    }
  }

  /** Parsing that stops returns the error of the first logical line that
      does not parse. */
  lemma ParseStopsAt(raw: seq<string>, digest: Digest)
    ensures var run := Parse(raw, digest);
      run.error.Some? ==> LineParser(LogicalLines(raw)[|run.state.lines|]) == Failure(run.error.value)
  {
    var lls := LogicalLines(raw);
    var parsed := Classify(lls);
    var run := ParseLines(Initial, parsed, digest);
    if run.error.Some? {
      var k := |run.state.lines|;
      assert |Initial.lines| == 0;
      assert parsed[k - |Initial.lines|] == Failure(run.error.value);
      assert parsed[k] == LineParser(lls[k]);
    }
  }

  /** Later ENV lines overwrite earlier ones: `name` is bound exactly when
      some ENV line defines it, and then to the value of the last such. */
  lemma {:induction false} EnvLastWins(ls: seq<Line>, name: string, i: nat)
    requires i < |ls| && DefinesEnv(ls[i], name)
    requires forall j :: i < j < |ls| ==> !DefinesEnv(ls[j], name)
    ensures name in EnvOf(ls) && EnvOf(ls)[name] == EnvEntry(ls[i].args).1
    decreases |ls|
  {
    if i > 0 {
      EnvLastWins(ls[1..], name, i - 1);
    } else {
      EnvNotDefined(ls[1..], name);
    }
  }

  lemma {:induction false} EnvNotDefined(ls: seq<Line>, name: string)
    requires forall j :: 0 <= j < |ls| ==> !DefinesEnv(ls[j], name)
    ensures name !in EnvOf(ls)
    decreases |ls|
  {
    if ls != [] {
      EnvNotDefined(ls[1..], name);
    }
  }

  /** The last FROM line wins; without one, `from_image` stays unset. */
  lemma {:induction false} FromLastWins(ls: seq<Line>, i: nat)
    requires i < |ls| && IsFrom(ls[i])
    requires forall j :: i < j < |ls| ==> !IsFrom(ls[j])
    ensures FromOf(ls) == Some(ls[i].args)
    decreases |ls|
  {
    if i > 0 {
      FromLastWins(ls[1..], i - 1);
    } else {
      FromNone(ls[1..]);
    }
  }

  lemma {:induction false} FromNone(ls: seq<Line>)
    requires forall j :: 0 <= j < |ls| ==> !IsFrom(ls[j])
    ensures FromOf(ls) == None
    decreases |ls|
  {
    if ls != [] {
      FromNone(ls[1..]);
    }
  }

  /** Comments, blank lines and directives other than ENV, FROM, HOST and
      RUN (COPY among them) change nothing but `lines`. */
  lemma IgnoredLines(st: ParserState, line: Line, digest: Digest)
    requires line.cmd == "#" || line.cmd == "" || Lower(line.cmd) !in {"env", "from", "host", "run"}
    ensures Absorb(st, line, digest) == st.(lines := st.lines + [line])
  {
  }

  /** A commented-out ENV line never reaches `env`. */
  lemma CommentedEnvIgnored(s: string)
    requires StartsWith(Strip(s), '#')
    ensures LineParser(s).Success? && forall name :: !DefinesEnv(LineParser(s).value, name)
  {
    assert Lower("#") == "#";
  }

  /** The two ENV examples: `A=b=c` binds `A` to `b=c`, and `A` binds `A`
      to the empty string. */
  lemma EnvEntryExamples()
    ensures EnvEntry("A=b=c") == ("A", "b=c")
    ensures EnvEntry("A") == ("A", "")
  {
    assert "A=b=c"[1..] == "=b=c" && "=b=c"[1..] == "b=c";
    assert SplitOnce("=b=c", '=') == Some(("", "b=c"));
    assert ['A'] + "" == "A";
    assert SplitOnce("A=b=c", '=') == Some(("A", "b=c"));
    assert "A"[1..] == "";
  }
}
