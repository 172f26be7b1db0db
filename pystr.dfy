/** The few Python `str` operations the Dockerfile parser relies on, over
    `string` (a sequence of Unicode scalar values). */
module PyStr {
  import opened Optional

  /** The characters for which Python's `str.isspace()` holds: TAB, LF,
      VT, FF, CR, the separators FS..US, SPACE, NEL, NBSP and the Unicode
      space, line and paragraph separators. */
  const Whitespace: set<char> := {' ', '\t', '\n', '\U{B}', '\U{C}', '\r', '\U{1C}', '\U{1D}', '\U{1E}', '\U{1F}', '\U{85}', '\U{A0}', '\U{1680}', '\U{2000}', '\U{2001}', '\U{2002}', '\U{2003}', '\U{2004}', '\U{2005}', '\U{2006}', '\U{2007}', '\U{2008}', '\U{2009}', '\U{200A}', '\U{2028}', '\U{2029}', '\U{202F}', '\U{205F}', '\U{3000}'}
  /** Python's `str.isspace()` for a single character. */
  predicate IsSpace(c: char) {
    c in Whitespace
  }

  /** `s.lstrip()`: `s` with its leading whitespace removed. */
  function LStrip(s: string): string {
    if s != [] && IsSpace(s[0]) then LStrip(s[1..]) else s
  }

  /** `LStrip` drops exactly the leading run of whitespace. */
  lemma {:induction false} LStripSpec(s: string)
    ensures |LStrip(s)| <= |s| && LStrip(s) == s[|s| - |LStrip(s)|..]
    ensures forall i :: 0 <= i < |s| - |LStrip(s)| ==> IsSpace(s[i])
    ensures LStrip(s) != [] ==> !IsSpace(LStrip(s)[0])
    decreases |s|
  {
    if s != [] && IsSpace(s[0]) {
      LStripSpec(s[1..]);
    }
  }

  /** `s.rstrip()`: `s` with its trailing whitespace removed. */
  function RStrip(s: string): string {
    if s != [] && IsSpace(s[|s| - 1]) then RStrip(s[..|s| - 1]) else s
  }

  /** `RStrip` drops exactly the trailing run of whitespace. */
  lemma {:induction false} RStripSpec(s: string)
    ensures |RStrip(s)| <= |s| && RStrip(s) == s[..|RStrip(s)|]
    ensures forall i :: |RStrip(s)| <= i < |s| ==> IsSpace(s[i])
    ensures RStrip(s) != [] ==> !IsSpace(RStrip(s)[|RStrip(s)| - 1])
    decreases |s|
  {
    if s != [] && IsSpace(s[|s| - 1]) {
      RStripSpec(s[..|s| - 1]);
    }
  }

  /** `s.strip()`: `s` with whitespace removed at both ends. */
  function Strip(s: string): string {
    RStrip(LStrip(s))
  }

  /** `Strip` is empty exactly for all-whitespace text; otherwise it starts
      where `LStrip` does and neither starts nor ends with whitespace. */
  lemma StripSpec(s: string)
    ensures Strip(s) == [] <==> forall i :: 0 <= i < |s| ==> IsSpace(s[i])
    ensures Strip(s) != [] ==> !IsSpace(Strip(s)[0]) && !IsSpace(Strip(s)[|Strip(s)| - 1])
    ensures Strip(s) != [] ==> Strip(s)[0] == LStrip(s)[0]
  {
    LStripSpec(s);
    RStripSpec(LStrip(s));
  }

  /** `s.lstrip(c)` for a single character `c`: `s` with the run of `c` at
      its front removed. */
  function LStripChar(s: string, c: char): string {
    if s != [] && s[0] == c then LStripChar(s[1..], c) else s
  }

  /** `LStripChar` drops exactly the leading run of `c`. */
  lemma {:induction false} LStripCharSpec(s: string, c: char)
    ensures |LStripChar(s, c)| <= |s| && LStripChar(s, c) == s[|s| - |LStripChar(s, c)|..]
    ensures forall i :: 0 <= i < |s| - |LStripChar(s, c)| ==> s[i] == c
    ensures LStripChar(s, c) != [] ==> LStripChar(s, c)[0] != c
    decreases |s|
  {
    if s != [] && s[0] == c {
      LStripCharSpec(s[1..], c);
    }
  }

  predicate StartsWith(s: string, c: char) {
    s != [] && s[0] == c
  }

  predicate EndsWith(s: string, c: char) {
    s != [] && s[|s| - 1] == c
  }

  /** `s.split(sep, 1)` for a one-character separator: `None` when `sep`
      does not occur (Python returns a one-element list), otherwise the text
      before the first `sep` and the text after it. */
  function SplitOnce(s: string, sep: char): Option<(string, string)> {
    if s == [] then None
    else if s[0] == sep then Some(([], s[1..]))
    else match SplitOnce(s[1..], sep)
      case None => None
      case Some(cut) => Some(([s[0]] + cut.0, cut.1))
  }

  /** `SplitOnce` fails exactly when `sep` is absent, and otherwise cuts at
      its first occurrence. */
  lemma {:induction false} SplitOnceSpec(s: string, sep: char)
    ensures SplitOnce(s, sep).None? <==> sep !in s
    ensures SplitOnce(s, sep).Some? ==>
      var cut := SplitOnce(s, sep).value;
      cut.0 + [sep] + cut.1 == s && sep !in cut.0
    decreases |s|
  {
    if s != [] && s[0] != sep {
      SplitOnceSpec(s[1..], sep);
      assert s == [s[0]] + s[1..];
    }
  }

  /** `"\n".join(ss)`. */
  function JoinLines(ss: seq<string>): (r: string)
  {
    if |ss| == 0 then ""
    else if |ss| == 1 then ss[0]
    else ss[0] + "\n" + JoinLines(ss[1..])
  }

  /** A join starts with the first character of its first part. */
  lemma {:induction false} JoinLinesFirst(ss: seq<string>)
    requires |ss| > 0 && ss[0] != []
    ensures JoinLines(ss) != [] && JoinLines(ss)[0] == ss[0][0]
  {
  }

  /** A join ends with the last character of its last part. */
  lemma {:induction false} JoinLinesLast(ss: seq<string>)
    requires |ss| > 0 && ss[|ss| - 1] != []
    ensures JoinLines(ss) != []
    ensures JoinLines(ss)[|JoinLines(ss)| - 1] == ss[|ss| - 1][|ss[|ss| - 1]| - 1]
    decreases |ss|
  {
    if |ss| > 1 {
      JoinLinesLast(ss[1..]);
    }
  }

  /** The join is built part by part: no parts give `""`, one part is
      itself, and each further part is added after a `"\n"`. These three
      facts determine the join. */
  lemma {:induction false} JoinLinesSnoc(ss: seq<string>, x: string)
    ensures JoinLines([]) == "" && JoinLines([x]) == x
    ensures ss != [] ==> JoinLines(ss + [x]) == JoinLines(ss) + "\n" + x
    decreases |ss|
  {
    if |ss| > 1 {
      var tail := ss[1..];
      assert (ss + [x])[1..] == tail + [x];
      JoinLinesSnoc(tail, x);
      assert JoinLines(ss + [x]) == ss[0] + "\n" + (JoinLines(tail) + "\n" + x);
    } else if |ss| == 1 {
      assert ss + [x] == [ss[0], x];
      assert [ss[0], x][1..] == [x];
    }
  }

  function LowerChar(c: char): char {
    if 'A' <= c <= 'Z' then (c as int + 32) as char else c
  }

  function UpperChar(c: char): char {
    if 'a' <= c <= 'z' then (c as int - 32) as char else c
  }

  /** `s.lower()` restricted to ASCII letters. */
  function Lower(s: string): string {
    seq(|s|, i requires 0 <= i < |s| => LowerChar(s[i]))
  }

  /** Comparing `s.lower()` with a lower-case word `w` matches `s` against
      `w` regardless of case: each character of `s` is the letter of `w`
      in either case. */
  lemma LowerMatches(s: string, w: string)
    requires forall i :: 0 <= i < |w| ==> 'a' <= w[i] <= 'z'
    ensures Lower(s) == w <==>
      |s| == |w| && forall i :: 0 <= i < |s| ==> s[i] == w[i] || s[i] == UpperChar(w[i])
  {
    if Lower(s) == w {
      forall i | 0 <= i < |s| ensures s[i] == w[i] || s[i] == UpperChar(w[i]) {
        assert LowerChar(s[i]) == w[i];
      }
    }
    if |s| == |w| && forall i :: 0 <= i < |s| ==> s[i] == w[i] || s[i] == UpperChar(w[i]) {
      forall i | 0 <= i < |s| ensures Lower(s)[i] == w[i] {
        assert LowerChar(s[i]) == w[i];
      }
    }
  }
}
