/** The string operations the quiz bot applies to its input files:
    Python's whitespace test, `str.strip()`, `str.split('\n')`, `'\n'.join`,
    and the blank-line block splitting of `re.split(r'\n\s*\n', ...)`. */
module Text {

  /** Python's `str.isspace()` for one character, which is also what `\s`
      matches in a `str` regular expression. */
  predicate IsSpace(c: char)
  {
    ('\U{9}' <= c <= '\U{d}') || ('\U{1c}' <= c <= '\U{20}') || c == '\U{85}' || c == '\U{a0}'
    || c == '\U{1680}' || ('\U{2000}' <= c <= '\U{200a}') || c == '\U{2028}' || c == '\U{2029}'
    || c == '\U{202f}' || c == '\U{205f}' || c == '\U{3000}'
  }

  /** A string made of whitespace only (the empty string included); as a
      line, this is a "blank" line. */
  predicate AllSpace(s: string)
  {
    forall i :: 0 <= i < |s| ==> IsSpace(s[i])
  }

  /** `s.lstrip()`. */
  function LStrip(s: string): string
  {
    if s != [] && IsSpace(s[0]) then LStrip(s[1..]) else s
  }

  /** `s.rstrip()`. */
  function RStrip(s: string): string
  {
    if s != [] && IsSpace(s[|s| - 1]) then RStrip(s[..|s| - 1]) else s
  }

  /** `lstrip` removes exactly the leading whitespace: what it drops is
      whitespace, and what it keeps is a suffix that does not start with any. */
  lemma {:induction false} LStripSpec(s: string)
    ensures |LStrip(s)| <= |s| && LStrip(s) == s[|s| - |LStrip(s)|..]
    ensures AllSpace(s[..|s| - |LStrip(s)|])
    ensures LStrip(s) == [] || !IsSpace(LStrip(s)[0])
  {
    if s != [] && IsSpace(s[0]) {
      LStripSpec(s[1..]);
      var k := |s| - |LStrip(s)|;
      assert s[..k] == [s[0]] + s[1..][..k - 1];
    }
  }

  /** `rstrip` removes exactly the trailing whitespace. */
  lemma {:induction false} RStripSpec(s: string)
    ensures |RStrip(s)| <= |s| && RStrip(s) == s[..|RStrip(s)|]
    ensures AllSpace(s[|RStrip(s)|..])
    ensures RStrip(s) == [] || !IsSpace(RStrip(s)[|RStrip(s)| - 1])
  {
    if s != [] && IsSpace(s[|s| - 1]) {
      var t := s[..|s| - 1];
      RStripSpec(t);
      assert s[|RStrip(s)|..] == t[|RStrip(t)|..] + [s[|s| - 1]];
    }
  }

  /** `s.strip()`. */
  function Strip(s: string): string
  {
    RStrip(LStrip(s))
  }

  /** `s.split('\n')`: the pieces of `s` between newline characters. */
  function Lines(s: string): (r: seq<string>)
    ensures |r| >= 1
    ensures forall i :: 0 <= i < |r| ==> '\n' !in r[i]
  {
    if s == [] then [""]
    else if s[0] == '\n' then [""] + Lines(s[1..])
    else
      var rest := Lines(s[1..]);
      [[s[0]] + rest[0]] + rest[1..]
  }

  /** `'\n'.join(lines)`. */
  function Join(lines: seq<string>): string
  {
    if |lines| == 0 then ""
    else if |lines| == 1 then lines[0]
    else lines[0] + "\n" + Join(lines[1..])
  }

  // ---------------------------------------------------------------------------
  // Lines and Join are inverse to each other

  lemma {:induction false} JoinLines(s: string)
    ensures Join(Lines(s)) == s
  {
    if s == [] {
    } else if s[0] == '\n' {
      JoinLines(s[1..]);
      assert s == "\n" + s[1..];
    } else {
      var rest := Lines(s[1..]);
      JoinLines(s[1..]);
      JoinCons(s[0], rest);
      assert s == [s[0]] + s[1..];
    }
  }

  /** Prepending a character to the first line prepends it to the joined text. */
  lemma {:induction false} JoinCons(c: char, lines: seq<string>)
    requires |lines| >= 1
    ensures Join([[c] + lines[0]] + lines[1..]) == [c] + Join(lines)
  {
    var l := [[c] + lines[0]] + lines[1..];
    assert l[0] == [c] + lines[0];
    if |lines| > 1 {
      assert l[1..] == lines[1..];
      var tail := "\n" + Join(lines[1..]);
      assert Join(l) == ([c] + lines[0]) + tail;
      assert Join(lines) == lines[0] + tail;
      assert ([c] + lines[0]) + tail == [c] + (lines[0] + tail);
    } else {
      assert l == [[c] + lines[0]];
    }
  }

  lemma {:induction false} LinesJoin(lines: seq<string>)
    requires |lines| >= 1
    requires forall i :: 0 <= i < |lines| ==> '\n' !in lines[i]
    ensures Lines(Join(lines)) == lines
  {
    if |lines| == 1 {
      LinesSingle(lines[0]);
    } else {
      LinesJoin(lines[1..]);
      LinesSingle(lines[0]);
      LinesAppend(lines[0], Join(lines[1..]));
      assert lines == [lines[0]] + lines[1..];
    }
  }

  /** A string without a newline is one line. */
  lemma {:induction false} LinesSingle(s: string)
    requires '\n' !in s
    ensures Lines(s) == [s]
  {
    if s != [] {
      LinesSingle(s[1..]);
      assert s == [s[0]] + s[1..];
    }
  }

  /** Splitting at a newline splits the list of lines there. */
  lemma {:induction false} LinesAppend(a: string, b: string)
    ensures Lines(a + "\n" + b) == Lines(a) + Lines(b)
  {
    var s := a + "\n" + b;
    if a == [] {
      assert s == "\n" + b;
      assert s[1..] == b;
    } else {
      assert s[0] == a[0];
      assert s[1..] == a[1..] + "\n" + b;
      LinesAppend(a[1..], b);
    }
  }

  lemma {:induction false} LinesOfSpace(s: string)
    requires AllSpace(s)
    ensures forall i :: 0 <= i < |Lines(s)| ==> AllSpace(Lines(s)[i])
  {
    if s != [] {
      LinesOfSpace(s[1..]);
      var rest := Lines(s[1..]);
      if s[0] != '\n' {
        assert AllSpace([s[0]] + rest[0]);
      }
    }
  }

  lemma JoinFirst(lines: seq<string>)
    requires |lines| >= 1 && lines[0] != []
    ensures |Join(lines)| > 0 && Join(lines)[0] == lines[0][0]
  {
  }

  lemma {:induction false} JoinLast(lines: seq<string>)
    requires |lines| >= 1 && lines[|lines| - 1] != []
    ensures |Join(lines)| > 0
    ensures Join(lines)[|Join(lines)| - 1] == lines[|lines| - 1][|lines[|lines| - 1]| - 1]
  {
    if |lines| > 1 {
      JoinLast(lines[1..]);
    }
  }

  // ---------------------------------------------------------------------------
  // Stripping a concatenation

  lemma {:induction false} LStripSpacePrefix(x: string, y: string)
    requires AllSpace(x)
    ensures LStrip(x + y) == LStrip(y)
  {
    if x != [] {
      assert (x + y)[0] == x[0];
      assert (x + y)[1..] == x[1..] + y;
      LStripSpacePrefix(x[1..], y);
    } else {
      assert x + y == y;
    }
  }

  lemma {:induction false} LStripKeepsTail(x: string, y: string)
    requires !AllSpace(x)
    ensures LStrip(x + y) == LStrip(x) + y
  {
    if IsSpace(x[0]) {
      assert (x + y)[1..] == x[1..] + y;
      LStripKeepsTail(x[1..], y);
    }
  }

  lemma {:induction false} RStripSpaceSuffix(x: string, y: string)
    requires AllSpace(y)
    ensures RStrip(x + y) == RStrip(x)
  {
    if y != [] {
      var s := x + y;
      assert s[|s| - 1] == y[|y| - 1];
      assert s[..|s| - 1] == x + y[..|y| - 1];
      RStripSpaceSuffix(x, y[..|y| - 1]);
    } else {
      assert x + y == x;
    }
  }

  lemma {:induction false} RStripKeepsHead(x: string, y: string)
    requires !AllSpace(y)
    ensures RStrip(x + y) == x + RStrip(y)
  {
    var s := x + y;
    if IsSpace(y[|y| - 1]) {
      assert s[..|s| - 1] == x + y[..|y| - 1];
      RStripKeepsHead(x, y[..|y| - 1]);
    }
  }

  /** A string that neither starts nor ends with whitespace is its own strip. */
  lemma StripUnchanged(s: string)
    requires s != [] && !IsSpace(s[0]) && !IsSpace(s[|s| - 1])
    ensures Strip(s) == s
  {
  }

  // ---------------------------------------------------------------------------
  // Blank-line blocks

  /** Number of leading non-blank lines. */
  function RunLength(lines: seq<string>): (n: nat)
    ensures n <= |lines|
    ensures forall i :: 0 <= i < n ==> !AllSpace(lines[i])
    ensures n < |lines| ==> AllSpace(lines[n])
  {
    if lines == [] || AllSpace(lines[0]) then 0 else 1 + RunLength(lines[1..])
  }

  /** The maximal runs of non-blank lines, in order; blank lines separate them. */
  function Groups(lines: seq<string>): seq<seq<string>>
    decreases |lines|
  {
    if lines == [] then []
    else if AllSpace(lines[0]) then Groups(lines[1..])
    else
      var n := RunLength(lines);
      [lines[..n]] + Groups(lines[n..])
  }

  /** Every group is a non-empty run of non-blank lines. */
  lemma {:induction false} GroupsAreRuns(lines: seq<string>)
    ensures forall k :: 0 <= k < |Groups(lines)| ==> Groups(lines)[k] != [] && NoBlank(Groups(lines)[k])
    decreases |lines|
  {
    if lines == [] {
    } else if AllSpace(lines[0]) {
      GroupsAreRuns(lines[1..]);
    } else {
      GroupsAreRuns(lines[RunLength(lines)..]);
    }
  }

  /** Grouping keeps every non-blank line, in order, and nothing else. */
  lemma {:induction false} GroupsKeepNonBlank(lines: seq<string>)
    ensures Flatten(Groups(lines)) == NonBlank(lines)
    decreases |lines|
  {
    if lines == [] {
    } else if AllSpace(lines[0]) {
      GroupsKeepNonBlank(lines[1..]);
    } else {
      var n := RunLength(lines);
      GroupsKeepNonBlank(lines[n..]);
      NonBlankSolid(lines[..n]);
      NonBlankAppend(lines[..n], lines[n..]);
      assert lines == lines[..n] + lines[n..];
    }
  }

  predicate NoBlank(lines: seq<string>)
  {
    forall i :: 0 <= i < |lines| ==> !AllSpace(lines[i])
  }

  /** Concatenation of a sequence of groups. */
  function Flatten(groups: seq<seq<string>>): seq<string>
  {
    if groups == [] then [] else groups[0] + Flatten(groups[1..])
  }

  /** The non-blank lines, in order. */
  function NonBlank(lines: seq<string>): seq<string>
  {
    if lines == [] then []
    else if AllSpace(lines[0]) then NonBlank(lines[1..])
    else [lines[0]] + NonBlank(lines[1..])
  }

  lemma {:induction false} NonBlankAppend(a: seq<string>, b: seq<string>)
    ensures NonBlank(a + b) == NonBlank(a) + NonBlank(b)
  {
    if a != [] {
      assert (a + b)[0] == a[0];
      assert (a + b)[1..] == a[1..] + b;
      NonBlankAppend(a[1..], b);
    } else {
      assert a + b == b;
    }
  }

  lemma {:induction false} NonBlankSolid(a: seq<string>)
    requires NoBlank(a)
    ensures NonBlank(a) == a
  {
    if a != [] {
      NonBlankSolid(a[1..]);
    }
  }

  /** `re.split(r'\n\s*\n', t)` for an already stripped `t`: every run of
      whitespace-only lines separates two blocks, and each block is the text
      of its lines. An empty `t` gives one empty block. */
  function SplitBlocks(t: string): (blocks: seq<string>)
    ensures |blocks| >= 1
  {
    var groups := Groups(Lines(t));
    if groups == [] then [""] else seq(|groups|, i requires 0 <= i < |groups| => Join(groups[i]))
  }

  /** An empty text is one empty block, as with `re.split`. */
  lemma SplitEmpty()
    ensures SplitBlocks("") == [""]
  {
    assert Lines("") == [""];
    assert Groups([""]) == [];
  }

  lemma {:induction false} RunLengthAppend(x: seq<string>, z: seq<string>)
    requires RunLength(x) < |x| || (z != [] && AllSpace(z[0]))
    ensures RunLength(x + z) == RunLength(x)
  {
    if x != [] && !AllSpace(x[0]) {
      assert (x + z)[1..] == x[1..] + z;
      RunLengthAppend(x[1..], z);
    }
  }

  lemma {:induction false} GroupsBlankPrefix(b: seq<string>, y: seq<string>)
    requires forall i :: 0 <= i < |b| ==> AllSpace(b[i])
    ensures Groups(b + y) == Groups(y)
  {
    if b != [] {
      assert (b + y)[0] == b[0];
      assert (b + y)[1..] == b[1..] + y;
      GroupsBlankPrefix(b[1..], y);
    } else {
      assert b + y == y;
    }
  }

  /** A non-empty run of blank lines splits the grouping in two, whatever its length. */
  lemma {:induction false} GroupsSeparated(x: seq<string>, b: seq<string>, y: seq<string>)
    requires b != [] && forall i :: 0 <= i < |b| ==> AllSpace(b[i])
    ensures Groups(x + b + y) == Groups(x) + Groups(y)
    decreases |x|
  {
    var s := x + b + y;
    if x == [] {
      assert s == b + y;
      GroupsBlankPrefix(b, y);
    } else if AllSpace(x[0]) {
      assert s[1..] == x[1..] + b + y;
      GroupsSeparated(x[1..], b, y);
    } else {
      var k := RunLength(x);
      RunLengthAppend(x, b + y);
      assert s == x + (b + y);
      assert s[..k] == x[..k];
      assert s[k..] == x[k..] + b + y;
      GroupsSeparated(x[k..], b, y);
    }
  }

  /** Non-blank lines with nothing between them form one group. */
  lemma GroupsSolid(x: seq<string>)
    requires x != [] && NoBlank(x)
    ensures Groups(x) == [x]
  {
    assert RunLength(x) == |x|;
    assert x[..|x|] == x;
  }

  // ---------------------------------------------------------------------------
  // Any run of blank lines separates blocks the way a single empty line does

  /** Stripping text that has a whitespace-only middle part `m`. */
  lemma StripAroundSpace(a: string, m: string, b: string)
    requires AllSpace(m)
    ensures !AllSpace(a) && !AllSpace(b) ==> Strip(a + m + b) == LStrip(a) + m + RStrip(b)
    ensures AllSpace(a) ==> Strip(a + m + b) == Strip(b)
    ensures !AllSpace(a) && AllSpace(b) ==> Strip(a + m + b) == Strip(a)
  {
    if AllSpace(a) {
      assert AllSpace(a + m);
      LStripSpacePrefix(a + m, b);
    } else {
      assert a + m + b == a + (m + b);
      LStripKeepsTail(a, m + b);
      assert LStrip(a) + (m + b) == (LStrip(a) + m) + b;
      if AllSpace(b) {
        assert AllSpace(m + b);
        RStripSpaceSuffix(LStrip(a), m + b);
      } else {
        RStripKeepsHead(LStrip(a) + m, b);
      }
    }
  }

  /** What the blocks of `a`, blank lines, `b` are made of, whatever the blank lines are. */
  function GroupsAround(a: string, b: string): seq<seq<string>>
  {
    if AllSpace(a) then Groups(Lines(Strip(b)))
    else if AllSpace(b) then Groups(Lines(Strip(a)))
    else Groups(Lines(LStrip(a))) + Groups(Lines(RStrip(b)))
  }

  /** The lines of `a'`, blank lines `w`, `b'` are those of the three parts. */
  lemma LinesAroundSpace(a': string, w: string, b': string)
    requires AllSpace(w)
    ensures Groups(Lines(a' + "\n" + w + "\n" + b')) == Groups(Lines(a')) + Groups(Lines(b'))
  {
    assert a' + "\n" + w + "\n" + b' == a' + "\n" + (w + "\n" + b');
    LinesAppend(a', w + "\n" + b');
    LinesAppend(w, b');
    LinesOfSpace(w);
    var la, lw, lb := Lines(a'), Lines(w), Lines(b');
    assert Lines(a' + "\n" + w + "\n" + b') == la + lw + lb;
    GroupsSeparated(la, lw, lb);
  }

  /** The line groups of the stripped text `a`, blank lines `w`, `b` do not depend on `w`. */
  lemma GroupsAcrossBlankRun(a: string, w: string, b: string)
    requires AllSpace(w)
    ensures Groups(Lines(Strip(a + "\n" + w + "\n" + b))) == GroupsAround(a, b)
  {
    var m := "\n" + w + "\n";
    assert AllSpace(m);
    assert a + "\n" + w + "\n" + b == a + m + b;
    StripAroundSpace(a, m, b);
    if !AllSpace(a) && !AllSpace(b) {
      assert LStrip(a) + m + RStrip(b) == LStrip(a) + "\n" + w + "\n" + RStrip(b);
      LinesAroundSpace(LStrip(a), w, RStrip(b));
    }
  }

  /** Blocks separated by any number of whitespace-only lines split exactly
      as blocks separated by one empty line. */
  lemma BlankRunsCollapse(a: string, w: string, b: string)
    requires AllSpace(w)
    ensures SplitBlocks(Strip(a + "\n" + w + "\n" + b)) == SplitBlocks(Strip(a + "\n\n" + b))
  {
    var s1, s2 := a + "\n" + w + "\n" + b, a + "\n\n" + b;
    GroupsAcrossBlankRun(a, w, b);
    GroupsAcrossBlankRun(a, "", b);
    assert s2 == a + "\n" + "" + "\n" + b;
    SameGroupsSameBlocks(Strip(s1), Strip(s2));
  }

  lemma SameGroupsSameBlocks(t1: string, t2: string)
    requires Groups(Lines(t1)) == Groups(Lines(t2))
    ensures SplitBlocks(t1) == SplitBlocks(t2)
  {
  }
}
