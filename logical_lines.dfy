/** How `_yield_lines` turns physical lines into logical lines: comments and
    blank lines come out on their own, in place, as they stand (right-
    stripped); the other lines are grouped into runs ended by a line without
    a trailing backslash, each run joined with newlines; a run still open
    at the end of the input is dropped. */
module LogicalLineFacts {
  import opened PyStr
  import opened Dockerfile

  /** A stripped physical line that is neither blank nor a comment. */
  predicate ContentPiece(s: string) {
    s != "" && !IsSpace(s[0]) && s[0] != '#'
  }

  /** An output line that `_line_parser` will sort as a comment or blank. */
  predicate InertOutput(o: string) {
    IsInert(Strip(o))
  }

  /** The comment and blank physical lines of `raw`, right-stripped, in order. */
  function InertRaw(raw: seq<string>): seq<string> {
    if raw == [] then []
    else (if IsInert(Strip(raw[0])) then [RStrip(raw[0])] else []) + InertRaw(raw[1..])
  }

  /** The other physical lines of `raw`, stripped, in order. */
  function ContentRaw(raw: seq<string>): (cs: seq<string>)
    ensures forall k :: 0 <= k < |cs| ==> ContentPiece(cs[k])
  {
    if raw == [] then []
    else
      var s := Strip(raw[0]);
      StripSpec(raw[0]);
      (if IsInert(s) then [] else [s]) + ContentRaw(raw[1..])
  }

  /** The output lines `_line_parser` sorts as comments or blanks. */
  function InertOutputs(out: seq<string>): seq<string> {
    if out == [] then []
    else (if InertOutput(out[0]) then [out[0]] else []) + InertOutputs(out[1..])
  }

  /** The output lines `_line_parser` sorts as directives. */
  function ContentOutputs(out: seq<string>): seq<string> {
    if out == [] then []
    else (if InertOutput(out[0]) then [] else [out[0]]) + ContentOutputs(out[1..])
  }

  function Flatten(gs: seq<seq<string>>): seq<string> {
    if gs == [] then [] else gs[0] + Flatten(gs[1..])
  }

  function JoinEach(gs: seq<seq<string>>): (r: seq<string>)
    ensures |r| == |gs| && forall k :: 0 <= k < |gs| ==> r[k] == JoinLines(gs[k])
  {
    if gs == [] then [] else [JoinLines(gs[0])] + JoinEach(gs[1..])
  }

  /** A run of content lines that makes one logical line: every line but
      the last ends with a backslash, the last does not. */
  predicate Terminated(g: seq<string>) {
    && g != []
    && !Continues(g[|g| - 1])
    && forall j :: 0 <= j < |g| - 1 ==> Continues(g[j])
  }

  /** The runs into which the content lines `cs` fall when the lines `acc`
      are already open. */
  function Groups(cs: seq<string>, acc: seq<string>): seq<seq<string>>
    decreases |cs|
  {
    if cs == [] then []
    else if Continues(cs[0]) then Groups(cs[1..], acc + [cs[0]])
    else [acc + [cs[0]]] + Groups(cs[1..], [])
  }

  /** When the open lines `acc` are all continued, every run is ended by
      its last line only. */
  lemma {:induction false} GroupsTerminated(cs: seq<string>, acc: seq<string>)
    requires forall j :: 0 <= j < |acc| ==> Continues(acc[j])
    ensures forall k :: 0 <= k < |Groups(cs, acc)| ==> Terminated(Groups(cs, acc)[k])
    decreases |cs|
  {
    if cs == [] {
    } else if Continues(cs[0]) {
      GroupsTerminated(cs[1..], acc + [cs[0]]);
    } else {
      GroupsTerminated(cs[1..], []);
      assert Groups(cs, acc) == [acc + [cs[0]]] + Groups(cs[1..], []);
    }
  }

  /** The lines of the run still open after `cs`, when `acc` is open before. */
  function Leftover(cs: seq<string>, acc: seq<string>): seq<string>
    decreases |cs|
  {
    if cs == [] then acc
    else if Continues(cs[0]) then Leftover(cs[1..], acc + [cs[0]])
    else Leftover(cs[1..], [])
  }

  /** The runs, followed by the run left open, are the lines they were
      built from. */
  lemma {:induction false} GroupsCover(cs: seq<string>, acc: seq<string>)
    ensures Flatten(Groups(cs, acc)) + Leftover(cs, acc) == acc + cs
    decreases |cs|
  {
    if cs == [] {
      assert Flatten(Groups(cs, acc)) == [];
      assert [] + acc == acc + cs;
    } else if Continues(cs[0]) {
      GroupsCover(cs[1..], acc + [cs[0]]);
      assert (acc + [cs[0]]) + cs[1..] == acc + cs;
    } else {
      GroupsCover(cs[1..], []);
      var rest := Groups(cs[1..], []);
      var l := Leftover(cs[1..], []);
      var g := acc + [cs[0]];
      assert Groups(cs, acc) == [g] + rest;
      assert ([g] + rest)[1..] == rest;
      calc {
        Flatten(Groups(cs, acc)) + Leftover(cs, acc);
        (g + Flatten(rest)) + l;
        g + (Flatten(rest) + l);
        { assert [] + cs[1..] == cs[1..]; }
        g + cs[1..];
        acc + cs;
      }
    }
  }

  /** When the open lines `acc` are all continued, so is the run left open. */
  lemma {:induction false} LeftoverContinues(cs: seq<string>, acc: seq<string>)
    requires forall j :: 0 <= j < |acc| ==> Continues(acc[j])
    ensures forall j :: 0 <= j < |Leftover(cs, acc)| ==> Continues(Leftover(cs, acc)[j])
    decreases |cs|
  {
    if cs != [] {
      if Continues(cs[0]) {
        assert forall j :: 0 <= j < |acc + [cs[0]]| ==> Continues((acc + [cs[0]])[j]);
        LeftoverContinues(cs[1..], acc + [cs[0]]);
      } else {
        LeftoverContinues(cs[1..], []);
      }
    }
  }

  /** The runs are determined by three facts: they cover a prefix of
      `acc + cs`, each is ended by its last line only, and what is left
      over is all continued lines. */
  lemma GroupsSpec(cs: seq<string>, acc: seq<string>)
    requires forall j :: 0 <= j < |acc| ==> Continues(acc[j])
    ensures Flatten(Groups(cs, acc)) <= acc + cs
    ensures forall k :: 0 <= k < |Groups(cs, acc)| ==> Terminated(Groups(cs, acc)[k])
    ensures forall j :: |Flatten(Groups(cs, acc))| <= j < |acc + cs| ==> Continues((acc + cs)[j])
  {
    GroupsTerminated(cs, acc);
    GroupsCover(cs, acc);
    LeftoverContinues(cs, acc);
    var f := Flatten(Groups(cs, acc));
    var l := Leftover(cs, acc);
    forall j | |f| <= j < |acc + cs| ensures Continues((acc + cs)[j]) {
      assert (acc + cs)[j] == l[j - |f|];
    }
  }

  /** The content lines still open after `_yield_lines` has read the
      physical lines `raw`, starting with `acc` open. */
  function Pending(raw: seq<string>, acc: seq<string>): seq<string>
    decreases |raw|
  {
    if raw == [] then acc else Pending(raw[1..], YieldStep(raw[0], [], acc).1)
  }

  /** What is still open after some physical lines is the run left open
      by their content lines. */
  lemma {:induction false} PendingIsLeftover(raw: seq<string>, acc: seq<string>)
    ensures Pending(raw, acc) == Leftover(ContentRaw(raw), acc)
    decreases |raw|
  {
    if raw != [] {
      var s := Strip(raw[0]);
      var cs := ContentRaw(raw[1..]);
      var next := YieldStep(raw[0], [], acc).1;
      PendingIsLeftover(raw[1..], next);
      if IsInert(s) {
        assert next == acc;
        assert ContentRaw(raw) == cs;
      } else {
        assert ContentRaw(raw) == [s] + cs;
        assert ([s] + cs)[0] == s && ([s] + cs)[1..] == cs;
        assert next == if Continues(s) then acc + [s] else [];
      }
    }
  }

  /** `_yield_lines` handles the first physical line, then goes on with
      the rest. */
  lemma YieldFirst(raw: seq<string>, acc: seq<string>)
    requires raw != []
    ensures var st := YieldStep(raw[0], [], acc);
      YieldFrom(raw, acc) == st.0 + YieldFrom(raw[1..], st.1)
  {
    var s := Strip(raw[0]);
    if IsInert(s) {
      assert [] + [RStrip(raw[0])] == [RStrip(raw[0])];
    } else if !Continues(s) {
      assert [] + [JoinLines(acc + [s])] == [JoinLines(acc + [s])];
    }
  }

  /** Splitting the physical lines anywhere splits the output there: the
      lines after the cut continue from what is open before it. */
  lemma {:induction false} YieldSplit(a: seq<string>, b: seq<string>, acc: seq<string>)
    ensures YieldFrom(a + b, acc) == YieldFrom(a, acc) + YieldFrom(b, Pending(a, acc))
    decreases |a|
  {
    if a == [] {
      assert a + b == b;
    } else {
      var ab := a + b;
      var rest := a[1..];
      var st := YieldStep(a[0], [], acc);
      var p := Pending(rest, st.1);
      assert ab[0] == a[0] && ab[1..] == rest + b;
      YieldFirst(ab, acc);
      YieldFirst(a, acc);
      YieldSplit(rest, b, st.1);
      ConcatAssoc(st.0, YieldFrom(rest, st.1), YieldFrom(b, p));
    }
  }

  /** A comment or blank first physical line comes out first, on its own,
      and leaves the open lines as they were. */
  lemma InertFirst(r: string, b: seq<string>, acc: seq<string>)
    requires IsInert(Strip(r))
    ensures YieldFrom([r] + b, acc) == [RStrip(r)] + YieldFrom(b, acc)
  {
    assert ([r] + b)[0] == r && ([r] + b)[1..] == b;
  }

  /** A comment or blank physical line comes out in its own place: right
      after what the lines before it yield, and before what the lines after
      it yield, even in the middle of a continuation. */
  lemma InertInPlace(a: seq<string>, r: string, b: seq<string>, acc: seq<string>)
    requires IsInert(Strip(r))
    ensures YieldFrom(a + [r] + b, acc)
         == YieldFrom(a, acc) + [RStrip(r)] + YieldFrom(b, Pending(a, acc))
  {
    var left := Pending(a, acc);
    var tail := [r] + b;
    InertFirst(r, b, left);
    YieldSplit(a, tail, acc);
    ConcatAssoc(a, [r], b);
    ConcatAssoc(YieldFrom(a, acc), [RStrip(r)], YieldFrom(b, left));
  }

  lemma ConcatAssoc<T>(x: seq<T>, y: seq<T>, z: seq<T>)
    ensures x + y + z == x + (y + z)
  {
  }

  /** A prefix `r[..n]` whose first non-whitespace character is at `k`
      left-strips to `r[k..n]`. */
  lemma {:induction false} LStripPrefix(r: string, n: nat, k: nat)
    requires k < n <= |r|
    requires forall i :: 0 <= i < k ==> IsSpace(r[i])
    requires !IsSpace(r[k])
    ensures LStrip(r[..n]) == r[k..n]
    decreases k
  {
    if k == 0 {
      assert r[..n][0] == r[0];
    } else {
      assert r[..n][0] == r[0];
      assert r[..n][1..] == r[1..][..n - 1];
      assert r[1..][k - 1..n - 1] == r[k..n];
      LStripPrefix(r[1..], n - 1, k - 1);
    }
  }

  /** Right-stripping a comment or blank line keeps it one. */
  lemma StripOfRStrip(r: string)
    requires IsInert(Strip(r))
    ensures IsInert(Strip(RStrip(r)))
  {
    var x := RStrip(r);
    RStripSpec(r);
    StripSpec(r);
    StripSpec(x);
    if Strip(r) != "" {
      LStripSpec(r);
      var k := |r| - |LStrip(r)|;
      assert r[k] == LStrip(r)[0];
      LStripPrefix(r, |x|, k);
      assert r[..|x|] == x;
    }
  }

  /** A joined run of content lines is sorted as a directive. */
  lemma JoinedIsContent(g: seq<string>)
    requires g != [] && forall j :: 0 <= j < |g| ==> ContentPiece(g[j])
    ensures !InertOutput(JoinLines(g))
  {
    JoinLinesFirst(g);
    var o := JoinLines(g);
    assert LStrip(o) == o;
    StripSpec(o);
  }

  /** Every comment or blank physical line comes out on its own, right-
      stripped and in order, whatever content lines are pending; nothing
      else comes out as a comment or blank. */
  lemma {:induction false} InertPassThrough(raw: seq<string>, acc: seq<string>)
    requires forall j :: 0 <= j < |acc| ==> ContentPiece(acc[j])
    ensures InertOutputs(YieldFrom(raw, acc)) == InertRaw(raw)
    decreases |raw|
  {
    if raw != [] {
      var s := Strip(raw[0]);
      var out := YieldFrom(raw, acc);
      if IsInert(s) {
        StripOfRStrip(raw[0]);
        InertPassThrough(raw[1..], acc);
        assert out[1..] == YieldFrom(raw[1..], acc);
      } else {
        StripSpec(raw[0]);
        assert ContentPiece(s);
        assert forall j :: 0 <= j < |acc + [s]| ==> ContentPiece((acc + [s])[j]);
        if Continues(s) {
          InertPassThrough(raw[1..], acc + [s]);
        } else {
          JoinedIsContent(acc + [s]);
          InertPassThrough(raw[1..], []);
          assert out[1..] == YieldFrom(raw[1..], []);
        }
      }
    }
  }

  /** The directive lines that come out are exactly the joined runs of
      content lines: comment and blank lines inside a continuation neither
      end nor reset it. */
  lemma {:induction false} ContentGrouping(raw: seq<string>, acc: seq<string>)
    requires forall j :: 0 <= j < |acc| ==> ContentPiece(acc[j]) && Continues(acc[j])
    ensures ContentOutputs(YieldFrom(raw, acc)) == JoinEach(Groups(ContentRaw(raw), acc))
    decreases |raw|
  {
    if raw != [] {
      var s := Strip(raw[0]);
      var out := YieldFrom(raw, acc);
      var cs := ContentRaw(raw);
      if IsInert(s) {
        StripOfRStrip(raw[0]);
        ContentGrouping(raw[1..], acc);
        assert cs == ContentRaw(raw[1..]);
        assert out[1..] == YieldFrom(raw[1..], acc);
        assert ContentOutputs(out) == ContentOutputs(out[1..]);
      } else if Continues(s) {
        assert cs == [s] + ContentRaw(raw[1..]);
        assert cs[1..] == ContentRaw(raw[1..]);
        assert forall j :: 0 <= j < |acc + [s]| ==>
          ContentPiece((acc + [s])[j]) && Continues((acc + [s])[j]);
        ContentGrouping(raw[1..], acc + [s]);
      } else {
        assert cs == [s] + ContentRaw(raw[1..]);
        assert cs[1..] == ContentRaw(raw[1..]);
        assert forall j :: 0 <= j < |acc + [s]| ==> ContentPiece((acc + [s])[j]);
        JoinedIsContent(acc + [s]);
        ContentGrouping(raw[1..], []);
        assert out[1..] == YieldFrom(raw[1..], []);
        var gs := Groups(cs, acc);
        assert gs == [acc + [s]] + Groups(ContentRaw(raw[1..]), []);
        assert JoinEach(gs)[1..] == JoinEach(gs[1..]);
      }
    }
  }

  /** A run ended by a content line without a backslash joins to a line
      without a trailing backslash. */
  lemma JoinedTerminated(g: seq<string>)
    requires Terminated(g) && ContentPiece(g[|g| - 1])
    ensures !EndsWith(JoinLines(g), '\\')
  {
    JoinLinesLast(g);
  }

  /** Each directive line that comes out was ended by a physical line that
      does not end with a backslash. */
  lemma EmittedAreTerminated(raw: seq<string>)
    ensures forall k :: 0 <= k < |ContentOutputs(LogicalLines(raw))| ==>
      !EndsWith(ContentOutputs(LogicalLines(raw))[k], '\\')
  {
    var cs := ContentRaw(raw);
    var gs := Groups(cs, []);
    var outs := ContentOutputs(LogicalLines(raw));
    ContentGrouping(raw, []);
    assert outs == JoinEach(gs);
    GroupsTerminated(cs, []);
    GroupsPieces(cs, []);
    forall k | 0 <= k < |outs| ensures !EndsWith(outs[k], '\\') {
      var g := gs[k];
      assert Terminated(g);
      assert ContentPiece(g[|g| - 1]);
      JoinedTerminated(g);
    }
  }

  /** The runs are made of the content lines they were built from. */
  lemma {:induction false} GroupsPieces(cs: seq<string>, acc: seq<string>)
    requires forall j :: 0 <= j < |acc| ==> ContentPiece(acc[j])
    requires forall j :: 0 <= j < |cs| ==> ContentPiece(cs[j])
    ensures forall k, j :: 0 <= k < |Groups(cs, acc)| && 0 <= j < |Groups(cs, acc)[k]| ==>
      ContentPiece(Groups(cs, acc)[k][j])
    decreases |cs|
  {
    if cs != [] {
      var next := acc + [cs[0]];
      assert forall j :: 0 <= j < |next| ==> ContentPiece(next[j]);
      if Continues(cs[0]) {
        GroupsPieces(cs[1..], next);
      } else {
        GroupsPieces(cs[1..], []);
        assert Groups(cs, acc) == [next] + Groups(cs[1..], []);
      }
    }
  }

  /** A continuation still open at the end of the file is never emitted:
      when every content line of `raw` ends with a backslash, only the
      comments and blanks come out. */
  lemma OpenContinuationDropped(raw: seq<string>)
    requires forall k :: 0 <= k < |ContentRaw(raw)| ==> Continues(ContentRaw(raw)[k])
    ensures ContentOutputs(LogicalLines(raw)) == []
    ensures InertOutputs(LogicalLines(raw)) == InertRaw(raw)
  {
    ContentGrouping(raw, []);
    InertPassThrough(raw, []);
    NoRunEnded(ContentRaw(raw), []);
  }

  lemma {:induction false} NoRunEnded(cs: seq<string>, acc: seq<string>)
    requires forall k :: 0 <= k < |cs| ==> Continues(cs[k])
    ensures Groups(cs, acc) == []
    decreases |cs|
  {
    if cs != [] {
      NoRunEnded(cs[1..], acc + [cs[0]]);
    }
  }
}
