/** The question-bank parser: the text of the bank file becomes an ordered
    sequence of quiz records. A bank is a list of blocks separated by blank
    lines; each block is a prompt line, four option lines labelled `a)` to
    `d)` and an `Answer: <letter>` line. Malformed blocks are skipped. */
module QuestionBank {
  import opened Wrappers
  import opened Text

  /** One quiz question: its prompt, its options and the index of the right one. */
  datatype QuestionRecord = QuestionRecord(prompt: string, options: seq<string>, correctIndex: int)

  /** The shape every parsed record has: four options, the answer one of them. */
  predicate ValidRecord(q: QuestionRecord)
  {
    |q.options| == 4 && 0 <= q.correctIndex < 4
  }

  // ---------------------------------------------------------------------------
  // Option lines: `re.sub(r'^[a-d]\)\s*', '', line)`

  /** The line starts with a lower-case label `a)` to `d)`. */
  predicate HasLabel(line: string)
  {
    |line| >= 2 && 'a' <= line[0] <= 'd' && line[1] == ')'
  }

  /** Drops a leading label and the whitespace after it; other lines are kept. */
  function StripLabel(line: string): string
  {
    if HasLabel(line) then LStrip(line[2..]) else line
  }

  /** A labelled line loses its label and the whitespace after it, and
      nothing more; any other line is kept as it is. */
  lemma StripLabelSpec(line: string)
    ensures !HasLabel(line) ==> StripLabel(line) == line
    ensures HasLabel(line) ==>
      var r := StripLabel(line);
      |r| + 2 <= |line| && r == line[|line| - |r|..] && AllSpace(line[2..|line| - |r|])
      && (r == [] || !IsSpace(r[0]))
  {
    if HasLabel(line) {
      var rest := line[2..];
      LStripSpec(rest);
      assert rest[..|rest| - |LStrip(rest)|] == line[2..|line| - |LStrip(rest)|];
    }
  }

  /** The list comprehension that strips every option line. */
  function StripLabels(lines: seq<string>): (r: seq<string>)
    ensures |r| == |lines|
  {
    seq(|lines|, i requires 0 <= i < |lines| => StripLabel(lines[i]))
  }

  /** Stripping undoes labelling: label, any whitespace, then text that does
      not itself start with whitespace, gives back the text. */
  lemma {:induction false} LabelRoundTrip(letter: char, gap: string, text: string)
    requires 'a' <= letter <= 'd' && AllSpace(gap)
    requires text == [] || !IsSpace(text[0])
    ensures StripLabel([letter, ')'] + gap + text) == text
  {
    var line := [letter, ')'] + gap + text;
    assert HasLabel(line);
    assert line[2..] == gap + text;
    LStripSpacePrefix(gap, text);
  }

  lemma StripLabelExamples()
    ensures StripLabel("b) Paris") == "Paris"
    ensures StripLabel("Paris") == "Paris"
    ensures StripLabel("B) Paris") == "B) Paris"
  {
    LabelRoundTrip('b', " ", "Paris");
    assert ['b', ')'] + " " + "Paris" == "b) Paris";
  }

  // ---------------------------------------------------------------------------
  // Answer lines: `re.search(r'Answer:\s*([a-d])', line, re.IGNORECASE)`

  /** ASCII lower-casing. */
  function Lower(c: char): char
  {
    if 'A' <= c <= 'Z' then (c as int + 32) as char else c
  }

  /** The literal part of the pattern, lower-cased. */
  const Tag: string := "answer:"

  /** `Answer:` in any letter case starts at `i`. */
  predicate TagAt(line: string, i: int)
  {
    0 <= i && i + |Tag| <= |line| && forall k :: 0 <= k < |Tag| ==> Lower(line[i + k]) == Tag[k]
  }

  /** One of `a`-`d` or `A`-`D`. */
  predicate IsAnswerLetter(c: char)
  {
    'a' <= Lower(c) <= 'd'
  }

  /** The pattern matches at `i`: the tag, some whitespace, then an answer letter at `j`. */
  predicate MatchAt(line: string, i: int)
  {
    TagAt(line, i) &&
    exists j :: i + |Tag| <= j < |line| && AllSpace(line[i + |Tag|..j]) && IsAnswerLetter(line[j])
  }

  /** First position at or after `j` that is not whitespace. */
  function SkipSpace(line: string, j: nat): (r: nat)
    requires j <= |line|
    ensures j <= r <= |line| && AllSpace(line[j..r])
    ensures r < |line| ==> !IsSpace(line[r])
    decreases |line| - j
  {
    if j < |line| && IsSpace(line[j]) then SkipSpace(line, j + 1) else j
  }

  /** The greedy reading of `\s*`: skip all whitespace, then look for the letter. */
  predicate GreedyMatchAt(line: string, i: int)
  {
    TagAt(line, i) && (var j := SkipSpace(line, i + |Tag|); j < |line| && IsAnswerLetter(line[j]))
  }

  /** Backtracking cannot help `\s*` here, so the greedy reading decides a
      match, and the letter it finds is the only one the group can capture. */
  lemma MatchAtGreedy(line: string, i: int)
    ensures MatchAt(line, i) <==> GreedyMatchAt(line, i)
    ensures TagAt(line, i) ==> forall j ::
      i + |Tag| <= j < |line| && AllSpace(line[i + |Tag|..j]) && IsAnswerLetter(line[j]) ==>
      j == SkipSpace(line, i + |Tag|)
  {
    if TagAt(line, i) {
      var r := SkipSpace(line, i + |Tag|);
      forall j | i + |Tag| <= j < |line| && AllSpace(line[i + |Tag|..j]) && IsAnswerLetter(line[j])
        ensures j == r
      {
      }
    }
  }

  /** The letter the group captures at a match. */
  function Captured(line: string, i: int): (c: char)
    requires MatchAt(line, i)
    ensures IsAnswerLetter(c)
  {
    MatchAtGreedy(line, i);
    line[SkipSpace(line, i + |Tag|)]
  }

  /** Leftmost match at or after `from`. */
  function Search(line: string, from: nat): (r: Option<nat>)
    ensures r.Some? ==> from <= r.value && MatchAt(line, r.value)
    ensures r.Some? ==> forall k :: from <= k < r.value ==> !MatchAt(line, k)
    ensures r.None? ==> forall k :: from <= k ==> !MatchAt(line, k)
    decreases |line| - from
  {
    MatchAtGreedy(line, from);
    if from >= |line| then None
    else if GreedyMatchAt(line, from) then Some(from)
    else Search(line, from + 1)
  }

  /** The answer letter of a line: the one captured at the leftmost match, if any. */
  function FindAnswer(line: string): (r: Option<char>)
    ensures r.None? <==> forall k :: 0 <= k ==> !MatchAt(line, k)
    ensures r.Some? ==> IsAnswerLetter(r.value)
  {
    match Search(line, 0)
    case None => None
    case Some(i) => Some(Captured(line, i))
  }

  /** The leftmost match decides the answer. */
  lemma FindAnswerLeftmost(line: string, i: int)
    requires MatchAt(line, i)
    requires forall k :: 0 <= k < i ==> !MatchAt(line, k)
    ensures FindAnswer(line) == Some(Captured(line, i))
  {
    var s := Search(line, 0);
    assert s.Some?;
  }

  /** `ord(letter.lower()) - ord('a')`. */
  function AnswerIndex(letter: char): int
  {
    Lower(letter) as int - 'a' as int
  }

  /** a/A map to 0, b/B to 1, c/C to 2 and d/D to 3. */
  lemma AnswerIndexMapping(letter: char)
    requires IsAnswerLetter(letter)
    ensures 0 <= AnswerIndex(letter) <= 3
    ensures AnswerIndex(letter) == 0 <==> letter in "aA"
    ensures AnswerIndex(letter) == 1 <==> letter in "bB"
    ensures AnswerIndex(letter) == 2 <==> letter in "cC"
    ensures AnswerIndex(letter) == 3 <==> letter in "dD"
  {
  }

  // ---------------------------------------------------------------------------
  // Blocks

  /** What becomes of one block: a record, or the reason it was skipped. */
  datatype BlockOutcome =
    | Accepted(record: QuestionRecord)
    | TooFewLines
    | NoAnswer
    | IndexOutOfRange

  /** One block, already stripped and split into lines. */
  function ParseLines(lines: seq<string>): (o: BlockOutcome)
    ensures o == TooFewLines <==> |lines| < 6
    ensures o != IndexOutOfRange
    ensures o.Accepted? ==> ValidRecord(o.record) && o.record.prompt == lines[0]
  {
    if |lines| < 6 then TooFewLines
    else
      var options := StripLabels(lines[1..5]);
      match FindAnswer(lines[5])
      case None => NoAnswer
      case Some(letter) =>
        var index := AnswerIndex(letter);
        if 0 <= index < |options| then Accepted(QuestionRecord(lines[0], options, index))
        else IndexOutOfRange
  }

  /** A block is accepted exactly when it has six lines and its sixth line matches. */
  lemma AcceptanceRule(lines: seq<string>)
    ensures ParseLines(lines).Accepted? <==> |lines| >= 6 && exists i :: 0 <= i && MatchAt(lines[5], i)
  {
  }

  /** The record of an accepted block: line 0, the stripped lines 1 to 4 and
      the letter captured at the leftmost match on line 5. */
  lemma AcceptedRecord(lines: seq<string>, i: int)
    requires |lines| >= 6 && MatchAt(lines[5], i)
    requires forall k :: 0 <= k < i ==> !MatchAt(lines[5], k)
    ensures ParseLines(lines) ==
      Accepted(QuestionRecord(lines[0], StripLabels(lines[1..5]), AnswerIndex(Captured(lines[5], i))))
  {
    FindAnswerLeftmost(lines[5], i);
  }

  /** Lines after the answer line play no part. */
  lemma LinesPastAnswerIgnored(lines: seq<string>)
    requires |lines| >= 6
    ensures ParseLines(lines) == ParseLines(lines[..6])
  {
    var short := lines[..6];
    assert short[1..5] == lines[1..5];
    assert short[5] == lines[5];
  }

  /** `block.strip().split('\n')` and the rules above. */
  function ParseBlock(block: string): BlockOutcome
  {
    ParseLines(Lines(Strip(block)))
  }

  /** A block of fewer than six lines gives no record. */
  lemma ShortBlockSkipped(block: string)
    requires |Lines(Strip(block))| < 6
    ensures Records(ParseBlock(block)) == []
  {
  }

  function Records(o: BlockOutcome): seq<QuestionRecord>
  {
    if o.Accepted? then [o.record] else []
  }

  /** The records of a list of blocks, in block order. */
  function ParseAll(blocks: seq<string>): (qs: seq<QuestionRecord>)
    ensures |qs| <= |blocks|
    ensures forall q :: q in qs ==> ValidRecord(q)
  {
    if blocks == [] then []
    else ParseAll(blocks[..|blocks| - 1]) + Records(ParseBlock(blocks[|blocks| - 1]))
  }

  /** Parsing distributes over concatenation of blocks: output order is block order. */
  lemma {:induction false} ParseAllAppend(a: seq<string>, b: seq<string>)
    ensures ParseAll(a + b) == ParseAll(a) + ParseAll(b)
    decreases |b|
  {
    if b == [] {
      assert a + b == a;
    } else {
      var n := |b| - 1;
      assert (a + b)[..|a + b| - 1] == a + b[..n];
      assert (a + b)[|a + b| - 1] == b[n];
      ParseAllAppend(a, b[..n]);
    }
  }

  /** The records of a whole bank file's text. */
  function ParseContent(content: string): (qs: seq<QuestionRecord>)
    ensures forall q :: q in qs ==> ValidRecord(q)
  {
    ParseAll(SplitBlocks(Strip(content)))
  }

  /** The number of blank lines between two blocks does not matter. */
  lemma BlankRunsDoNotMatter(a: string, w: string, b: string)
    requires AllSpace(w)
    ensures ParseContent(a + "\n" + w + "\n" + b) == ParseContent(a + "\n\n" + b)
  {
    BlankRunsCollapse(a, w, b);
  }

  /** `parse_questions`: a missing file gives no questions; otherwise the
      blocks are parsed one after the other and the accepted ones appended. */
  method ParseQuestions(file: Option<string>) returns (questions: seq<QuestionRecord>)
    ensures file.None? ==> questions == []
    ensures file.Some? ==> questions == ParseContent(file.value)
  {
    questions := [];
    if file.None? {
      return;
    }
    var blocks := SplitBlocks(Strip(file.value));
    for i := 0 to |blocks|
      invariant questions == ParseAll(blocks[..i])
    {
      assert blocks[..i + 1][..i] == blocks[..i];
      ghost var outcome := ParseBlock(blocks[i]);
      assert ParseAll(blocks[..i + 1]) == questions + Records(outcome);
      var lines := Lines(Strip(blocks[i]));
      assert outcome == ParseLines(lines);
      if |lines| < 6 {
        assert outcome == TooFewLines;
        assert Records(outcome) == [];
        assert ParseAll(blocks[..i + 1]) == questions;
        continue;
      }
      var prompt := lines[0];
      var options := StripLabels(lines[1..5]);
      var answer := FindAnswer(lines[5]);
      if answer.None? {
        assert outcome == NoAnswer;
        assert ParseAll(blocks[..i + 1]) == questions;
        continue;
      }
      var index := AnswerIndex(answer.value);
      if 0 <= index < |options| {
        assert outcome == Accepted(QuestionRecord(prompt, options, index));
        questions := questions + [QuestionRecord(prompt, options, index)];
      } else {
        assert false;
      }
    }
    assert blocks[..|blocks|] == blocks;
  }

  // ---------------------------------------------------------------------------
  // The documented file format, and parsing it back

  /** The letter written for an answer index: the inverse of AnswerIndex. */
  function LetterFor(index: int): (c: char)
    requires 0 <= index < 4
    ensures IsAnswerLetter(c) && AnswerIndex(c) == index
  {
    ('a' as int + index) as char
  }

  /** The six lines of a record in the bank file format. */
  function BlockLines(q: QuestionRecord): seq<string>
    requires ValidRecord(q)
  {
    [ q.prompt,
      OptionLine('a', q.options[0]), OptionLine('b', q.options[1]),
      OptionLine('c', q.options[2]), OptionLine('d', q.options[3]),
      AnswerLine(q.correctIndex) ]
  }

  /** An option line: its label, a space, the option text. */
  function OptionLine(letter: char, option: string): string
  {
    [letter, ')', ' '] + option
  }

  /** The answer line written for an index. */
  function AnswerLine(index: int): string
    requires 0 <= index < 4
  {
    "Answer: " + [LetterFor(index)]
  }

  function RenderBlock(q: QuestionRecord): string
    requires ValidRecord(q)
  {
    Join(BlockLines(q))
  }

  /** The lines of a whole bank: the blocks, with one empty line between two blocks. */
  function RenderLines(qs: seq<QuestionRecord>): seq<string>
    requires forall i :: 0 <= i < |qs| ==> ValidRecord(qs[i])
  {
    if |qs| == 0 then []
    else if |qs| == 1 then BlockLines(qs[0])
    else BlockLines(qs[0]) + [""] + RenderLines(qs[1..])
  }

  /** The text of a bank file holding `qs`. */
  function Render(qs: seq<QuestionRecord>): string
    requires forall i :: 0 <= i < |qs| ==> ValidRecord(qs[i])
  {
    Join(RenderLines(qs))
  }

  /** A record the file format can carry: a prompt on one line that starts
      with a visible character, options on one line each that do not start
      with whitespace. */
  predicate Renderable(q: QuestionRecord)
  {
    ValidRecord(q) && q.prompt != [] && !IsSpace(q.prompt[0]) && '\n' !in q.prompt &&
    forall k :: 0 <= k < 4 ==> '\n' !in q.options[k] && (q.options[k] == [] || !IsSpace(q.options[k][0]))
  }

  predicate AllRenderable(qs: seq<QuestionRecord>)
  {
    forall i :: 0 <= i < |qs| ==> Renderable(qs[i])
  }

  lemma OptionLineShape(letter: char, option: string)
    requires 'a' <= letter <= 'd' && '\n' !in option
    ensures '\n' !in OptionLine(letter, option) && !AllSpace(OptionLine(letter, option))
  {
    assert OptionLine(letter, option)[0] == letter;
  }

  lemma BlockLinesShape(q: QuestionRecord)
    requires Renderable(q)
    ensures forall i :: 0 <= i < 6 ==> '\n' !in BlockLines(q)[i] && !AllSpace(BlockLines(q)[i])
  {
    var ls := BlockLines(q);
    assert !IsSpace(ls[0][0]);
    OptionLineShape('a', q.options[0]);
    OptionLineShape('b', q.options[1]);
    OptionLineShape('c', q.options[2]);
    OptionLineShape('d', q.options[3]);
    assert ls[5][0] == 'A';
  }

  /** Stripping an option line gives back the option. */
  lemma OptionLineStripped(letter: char, option: string)
    requires 'a' <= letter <= 'd'
    requires option == [] || !IsSpace(option[0])
    ensures StripLabel(OptionLine(letter, option)) == option
  {
    assert OptionLine(letter, option) == [letter, ')'] + " " + option;
    LabelRoundTrip(letter, " ", option);
  }

  lemma BlockOptions(q: QuestionRecord)
    requires Renderable(q)
    ensures StripLabels(BlockLines(q)[1..5]) == q.options
  {
    var o := q.options;
    assert o[0] == [] || !IsSpace(o[0][0]);
    assert o[1] == [] || !IsSpace(o[1][0]);
    assert o[2] == [] || !IsSpace(o[2][0]);
    assert o[3] == [] || !IsSpace(o[3][0]);
    OptionLineStripped('a', o[0]);
    OptionLineStripped('b', o[1]);
    OptionLineStripped('c', o[2]);
    OptionLineStripped('d', o[3]);
    var ls := BlockLines(q);
    assert ls[1..5] == [ls[1], ls[2], ls[3], ls[4]];
    StripLabelsAt(ls[1..5]);
  }

  lemma StripLabelsAt(lines: seq<string>)
    requires |lines| == 4
    ensures StripLabels(lines) == [StripLabel(lines[0]), StripLabel(lines[1]), StripLabel(lines[2]), StripLabel(lines[3])]
  {
  }

  /** The answer line gives back the index it was written for. */
  lemma AnswerLineFound(index: int)
    requires 0 <= index < 4
    ensures FindAnswer(AnswerLine(index)) == Some(LetterFor(index))
  {
    var line := AnswerLine(index);
    assert TagAt(line, 0);
    assert SkipSpace(line, 8) == 8;
    assert SkipSpace(line, 7) == 8;
    MatchAtGreedy(line, 0);
    FindAnswerLeftmost(line, 0);
  }

  /** Parsing a rendered block gives the record back. */
  lemma ParseRenderedBlock(q: QuestionRecord)
    requires Renderable(q)
    ensures ParseBlock(RenderBlock(q)) == Accepted(q)
  {
    var ls := BlockLines(q);
    var text := RenderBlock(q);
    BlockLinesShape(q);
    BlockOptions(q);
    JoinFirst(ls);
    JoinLast(ls);
    StripUnchanged(text);
    LinesJoin(ls);
    assert Lines(Strip(text)) == ls;
    AnswerLineFound(q.correctIndex);
  }

  lemma {:induction false} RenderLinesFacts(qs: seq<QuestionRecord>)
    requires |qs| >= 1 && AllRenderable(qs)
    ensures |RenderLines(qs)| >= 1
    ensures RenderLines(qs)[0] == qs[0].prompt
    ensures RenderLines(qs)[|RenderLines(qs)| - 1] == AnswerLine(qs[|qs| - 1].correctIndex)
    ensures forall i :: 0 <= i < |RenderLines(qs)| ==> '\n' !in RenderLines(qs)[i]
  {
    BlockLinesShape(qs[0]);
    if |qs| > 1 {
      RenderLinesFacts(qs[1..]);
    }
  }

  /** The blocks of a rendered bank are the rendered records. */
  lemma {:induction false} GroupsOfRender(qs: seq<QuestionRecord>)
    requires |qs| >= 1 && AllRenderable(qs)
    ensures Groups(RenderLines(qs)) == seq(|qs|, i requires 0 <= i < |qs| => BlockLines(qs[i]))
  {
    BlockLinesShape(qs[0]);
    GroupsSolid(BlockLines(qs[0]));
    if |qs| > 1 {
      GroupsOfRender(qs[1..]);
      GroupsSeparated(BlockLines(qs[0]), [""], RenderLines(qs[1..]));
    }
  }

  /** The rendered block of every record. */
  function RenderBlocks(qs: seq<QuestionRecord>): (blocks: seq<string>)
    requires forall i :: 0 <= i < |qs| ==> ValidRecord(qs[i])
    ensures |blocks| == |qs|
  {
    seq(|qs|, i requires 0 <= i < |qs| => RenderBlock(qs[i]))
  }

  lemma {:induction false} ParseAllRendered(qs: seq<QuestionRecord>)
    requires AllRenderable(qs)
    ensures ParseAll(RenderBlocks(qs)) == qs
  {
    if qs != [] {
      var n := |qs| - 1;
      var blocks := RenderBlocks(qs);
      ParseAllRendered(qs[..n]);
      assert blocks[..n] == RenderBlocks(qs[..n]);
      assert blocks[n] == RenderBlock(qs[n]);
      ParseRenderedBlock(qs[n]);
      assert Records(ParseBlock(blocks[n])) == [qs[n]];
      assert ParseAll(blocks) == qs[..n] + [qs[n]];
      SplitLast(qs);
    } else {
      assert RenderBlocks(qs) == [];
    }
  }

  lemma SplitLast<T>(s: seq<T>)
    requires s != []
    ensures s[..|s| - 1] + [s[|s| - 1]] == s
  {
  }

  /** Parsing the file format gives back the bank it was written from. */
  lemma ParseRender(qs: seq<QuestionRecord>)
    requires AllRenderable(qs)
    ensures ParseContent(Render(qs)) == qs
  {
    var text := Render(qs);
    if qs == [] {
      assert Strip(text) == "";
      assert Groups(Lines("")) == [];
      assert ParseBlock("") == TooFewLines;
      assert ParseAll([""]) == [];
    } else {
      var ls := RenderLines(qs);
      RenderLinesFacts(qs);
      JoinFirst(ls);
      JoinLast(ls);
      StripUnchanged(text);
      LinesJoin(ls);
      GroupsOfRender(qs);
      assert SplitBlocks(text) == RenderBlocks(qs);
      ParseAllRendered(qs);
    }
  }
}
