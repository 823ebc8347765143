/** One run of the daily job: load the bank, read the cursor, then either
    stop, tell every chat that the bank is exhausted, or send the next
    batch of questions as quiz polls to every chat and advance the cursor.
    Sending is recorded as a trace of abstract events. */
module Driver {
  import opened Wrappers
  import opened QuestionBank
  import opened Progress

  type ChatId = string

  /** What the job asks the messaging service to do. */
  datatype Event =
    | Poll(chat: ChatId, question: QuestionRecord)
    | Message(chat: ChatId, text: string)

  /** Which of the job's branches a run takes. */
  datatype Branch = NoChats | EmptyBank | Exhausted | Pending

  /** The batch selected, the events sent and the cursor written (if any). */
  datatype RunResult = RunResult(branch: Branch, batch: seq<QuestionRecord>, trace: seq<Event>, written: Option<int>)

  /** The batch size of the deployed job. */
  const QuestionsPerDay: nat := 20

  const DoneText: string := "no question, we done"

  function Min(a: int, b: int): (m: int)
    ensures m <= a && m <= b
    ensures m == a || m == b
  {
    if a <= b then a else b
  }

  /** Where a slice bound lands in a sequence of length `len`: a negative
      bound counts from the end, and both are clipped to `[0, len]`. */
  function PyIndex(i: int, len: nat): (k: nat)
    ensures k <= len
    ensures 0 <= i <= len ==> k == i
    ensures i < 0 && -i <= len ==> k == len + i
  {
    if i < 0 then (if len + i < 0 then 0 else len + i)
    else if i > len then len
    else i
  }

  /** Python's slice `s[lo:hi]`: a negative bound counts from the end, then
      both bounds are clipped to `[0, |s|]`; an empty range gives `[]`. */
  function PySlice<T>(s: seq<T>, lo: int, hi: int): (r: seq<T>)
    ensures 0 <= lo <= hi <= |s| ==> r == s[lo..hi]
    ensures |r| <= |s|
  {
    var a := PyIndex(lo, |s|);
    var b := PyIndex(hi, |s|);
    if a < b then s[a..b] else []
  }

  /** One message with `text` to every chat, in chat order. */
  function Notices(chats: seq<ChatId>, text: string): (t: seq<Event>)
    ensures |t| == |chats|
    ensures forall j :: 0 <= j < |chats| ==> t[j] == Message(chats[j], text)
  {
    seq(|chats|, j requires 0 <= j < |chats| => Message(chats[j], text))
  }

  /** The polls of one question, one per chat, in chat order. */
  function PollsFor(q: QuestionRecord, chats: seq<ChatId>): (t: seq<Event>)
    ensures |t| == |chats|
    ensures forall j :: 0 <= j < |chats| ==> t[j] == Poll(chats[j], q)
  {
    seq(|chats|, j requires 0 <= j < |chats| => Poll(chats[j], q))
  }

  /** The polls of a batch: question by question, each to every chat. */
  function PollTrace(batch: seq<QuestionRecord>, chats: seq<ChatId>): seq<Event>
  {
    if batch == [] then []
    else PollTrace(batch[..|batch| - 1], chats) + PollsFor(batch[|batch| - 1], chats)
  }

  /** Where the poll of question `i` to chat `j` sits in a trace sent to `c` chats. */
  function Slot(i: int, j: int, c: int): int
  {
    i * c + j
  }

  /** The trace holds |batch| * |chats| polls in question-major, chat-minor order. */
  lemma {:induction false} PollTraceOrder(batch: seq<QuestionRecord>, chats: seq<ChatId>)
    ensures |PollTrace(batch, chats)| == |batch| * |chats|
    ensures forall i, j :: 0 <= i < |batch| && 0 <= j < |chats| ==>
      0 <= Slot(i, j, |chats|) < |PollTrace(batch, chats)| &&
      PollTrace(batch, chats)[Slot(i, j, |chats|)] == Poll(chats[j], batch[i])
  {
    if batch != [] {
      var init := batch[..|batch| - 1];
      var last := batch[|batch| - 1];
      var c := |chats|;
      PollTraceOrder(init, chats);
      var t := PollTrace(batch, chats);
      assert t == PollTrace(init, chats) + PollsFor(last, chats);
      assert |t| == |init| * c + c;
      MulSucc(|init|, |batch|, c);
      forall i, j | 0 <= i < |batch| && 0 <= j < c
        ensures 0 <= Slot(i, j, c) < |t| && t[Slot(i, j, c)] == Poll(chats[j], batch[i])
      {
        if i < |init| {
          IndexBelow(i, |init|, j, c);
          assert batch[i] == init[i];
        } else {
          assert Slot(i, j, c) == |init| * c + j;
        }
      }
    }
  }

  lemma MulSucc(m: nat, n: nat, c: nat)
    requires n == m + 1
    ensures n * c == m * c + c
  {
  }

  /** Row `i`, column `j` of a table with `m` rows of `c` columns lies inside it. */
  lemma IndexBelow(i: nat, m: nat, j: nat, c: nat)
    requires i < m && j < c
    ensures 0 <= Slot(i, j, c) < m * c
  {
    assert (i + 1) * c <= m * c by {
      MulStep(m - i, c);
      assert m * c == (i + 1) * c + (m - i - 1) * c;
    }
  }

  /** The outcome of one run over the parsed bank, the cursor read and the chat list. */
  function Run(bank: seq<QuestionRecord>, start: int, batchSize: nat, chats: seq<ChatId>): RunResult
  {
    if chats == [] then RunResult(NoChats, [], [], None)
    else if bank == [] then RunResult(EmptyBank, [], [], None)
    else if start >= |bank| then RunResult(Exhausted, [], Notices(chats, DoneText), None)
    else
      var end := Min(start + batchSize, |bank|);
      var batch := PySlice(bank, start, end);
      RunResult(Pending, batch, PollTrace(batch, chats), Some(end))
  }

  /** An empty bank sends nothing and leaves the cursor alone. */
  lemma EmptyBankRun(start: int, batchSize: nat, chats: seq<ChatId>)
    requires chats != []
    ensures Run([], start, batchSize, chats) == RunResult(EmptyBank, [], [], None)
  {
  }

  /** Past the end of the bank every chat gets exactly one done message
      and the cursor is not rewritten. */
  lemma ExhaustedRun(bank: seq<QuestionRecord>, start: int, batchSize: nat, chats: seq<ChatId>)
    requires chats != [] && bank != [] && start >= |bank|
    ensures Run(bank, start, batchSize, chats).branch == Exhausted
    ensures Run(bank, start, batchSize, chats).written == None
    ensures |Run(bank, start, batchSize, chats).trace| == |chats|
    ensures forall j :: 0 <= j < |chats| ==> Run(bank, start, batchSize, chats).trace[j] == Message(chats[j], DoneText)
  {
  }

  /** A pending run sends exactly `bank[start..end]` with `end = min(start + N, |bank|)`,
      to every chat, and writes `end`. */
  lemma PendingRun(bank: seq<QuestionRecord>, start: int, batchSize: nat, chats: seq<ChatId>)
    requires chats != [] && 0 <= start < |bank| && batchSize >= 1
    ensures var r := Run(bank, start, batchSize, chats);
      && r.branch == Pending
      && r.written.Some?
      && start < r.written.value <= |bank|
      && r.written.value == Min(start + batchSize, |bank|)
      && r.batch == bank[start..r.written.value]
      && |r.batch| <= batchSize
      && |r.trace| == |r.batch| * |chats|
  {
    var r := Run(bank, start, batchSize, chats);
    PollTraceOrder(r.batch, chats);
  }

  /** A cursor below zero (a signed value in the cursor file) still selects
      `bank[start:end]` with Python's slice rule (a negative bound counts from
      the end, then both bounds are clipped to `[0, |bank|]`): with 45
      questions and cursor -3 nothing is sent and 17 is written, so questions
      0 to 16 are never sent; with cursor -30, questions 15 to 34 are sent and
      -10 is written. */
  lemma NegativeCursorRuns(bank: seq<QuestionRecord>, chats: seq<ChatId>)
    requires |bank| == 45 && chats != []
    ensures Run(bank, -3, QuestionsPerDay, chats) == RunResult(Pending, [], [], Some(17))
    ensures Run(bank, -30, QuestionsPerDay, chats).batch == bank[15..35]
    ensures Run(bank, -30, QuestionsPerDay, chats).written == Some(-10)
  {
  }

  /** The cursor after a run: the written value, or the old one when nothing is written. */
  function NextCursor(bank: seq<QuestionRecord>, start: int, batchSize: nat, chats: seq<ChatId>): int
  {
    var r := Run(bank, start, batchSize, chats);
    if r.written.Some? then r.written.value else start
  }

  /** Every pending run moves the cursor forward, never past the end of the
      bank; every other run leaves it where it is. */
  lemma CursorAdvances(bank: seq<QuestionRecord>, start: int, batchSize: nat, chats: seq<ChatId>)
    requires batchSize >= 1
    ensures Run(bank, start, batchSize, chats).branch == Pending ==>
      start < NextCursor(bank, start, batchSize, chats) <= |bank|
    ensures Run(bank, start, batchSize, chats).branch != Pending ==>
      NextCursor(bank, start, batchSize, chats) == start
  {
  }

  /** The cursor after `runs` consecutive runs over the same bank and chats. */
  function CursorAfter(bank: seq<QuestionRecord>, start: int, batchSize: nat, chats: seq<ChatId>, runs: nat): int
    decreases runs
  {
    if runs == 0 then start
    else CursorAfter(bank, NextCursor(bank, start, batchSize, chats), batchSize, chats, runs - 1)
  }

  /** The questions sent over `runs` consecutive runs, in sending order. */
  function SentAfter(bank: seq<QuestionRecord>, start: int, batchSize: nat, chats: seq<ChatId>, runs: nat): seq<QuestionRecord>
    decreases runs
  {
    if runs == 0 then []
    else Run(bank, start, batchSize, chats).batch + SentAfter(bank, NextCursor(bank, start, batchSize, chats), batchSize, chats, runs - 1)
  }

  /** `k * n` taken one step at a time. */
  lemma MulStep(k: nat, n: nat)
    requires k >= 1
    ensures k * n == n + (k - 1) * n
    ensures (k - 1) * n >= 0
  {
  }

  /** Where the cursor stands after `k` batches of `n` from `start`, each capped at `len`. */
  function Reach(start: int, n: nat, len: int, k: nat): int
    decreases k
  {
    if k == 0 then start else Reach(Min(start + n, len), n, len, k - 1)
  }

  /** Batch by batch is the same as all at once: `min(start + k * n, len)`. */
  lemma {:induction false} ReachClosedForm(start: int, n: nat, len: int, k: nat)
    requires start <= len
    ensures Reach(start, n, len, k) == Min(start + k * n, len)
    decreases k
  {
    if k > 0 {
      MulStep(k, n);
      ReachClosedForm(Min(start + n, len), n, len, k - 1);
    }
  }

  /** One run, then `k - 1` more. */
  lemma RunsUnfold(bank: seq<QuestionRecord>, start: int, batchSize: nat, chats: seq<ChatId>, k: nat)
    requires k >= 1
    ensures CursorAfter(bank, start, batchSize, chats, k)
      == CursorAfter(bank, NextCursor(bank, start, batchSize, chats), batchSize, chats, k - 1)
    ensures SentAfter(bank, start, batchSize, chats, k)
      == Run(bank, start, batchSize, chats).batch + SentAfter(bank, NextCursor(bank, start, batchSize, chats), batchSize, chats, k - 1)
  {
  }

  /** From a cursor in `[0, |bank|]`, `k` runs move it batch by batch towards the
      end of the bank and send exactly the questions passed over, each once and
      in bank order. */
  lemma {:induction false} RunsFromCursor(bank: seq<QuestionRecord>, start: int, batchSize: nat, chats: seq<ChatId>, k: nat)
    requires chats != [] && bank != [] && 0 <= start <= |bank| && batchSize >= 1
    ensures start <= Reach(start, batchSize, |bank|, k) <= |bank|
    ensures CursorAfter(bank, start, batchSize, chats, k) == Reach(start, batchSize, |bank|, k)
    ensures SentAfter(bank, start, batchSize, chats, k) == bank[start..Reach(start, batchSize, |bank|, k)]
    decreases k
  {
    if k > 0 {
      var next := NextCursor(bank, start, batchSize, chats);
      if start == |bank| {
        ExhaustedIsFixedPoint(bank, start, batchSize, chats, k);
        ReachAtEnd(|bank|, batchSize, k);
        assert bank[start..start] == [];
      } else {
        RunsUnfold(bank, start, batchSize, chats, k);
        PendingRun(bank, start, batchSize, chats);
        assert next == Min(start + batchSize, |bank|);
        RunsFromCursor(bank, next, batchSize, chats, k - 1);
        SliceSplit(bank, start, next, Reach(next, batchSize, |bank|, k - 1));
      }
    }
  }

  /** Once at the end, the cursor stays there. */
  lemma {:induction false} ReachAtEnd(len: int, n: nat, k: nat)
    ensures Reach(len, n, len, k) == len
  {
    if k > 0 {
      ReachAtEnd(len, n, k - 1);
    }
  }

  lemma SliceSplit<T>(s: seq<T>, a: int, b: int, c: int)
    requires 0 <= a <= b <= c <= |s|
    ensures s[a..b] + s[b..c] == s[a..c]
  {
  }

  /** The number of runs that drain the bank from a cursor in `[0, |bank|]`:
      the ceiling of `(|bank| - start) / N`. */
  function RunsToDrain(len: nat, start: int, batchSize: nat): nat
    requires 0 <= start <= len && batchSize >= 1
  {
    (len - start + batchSize - 1) / batchSize
  }

  /** `RunsToDrain` is the least number of batches that cover the distance to the end. */
  lemma DrainCount(len: nat, start: int, batchSize: nat)
    requires 0 <= start <= len && batchSize >= 1
    ensures start + RunsToDrain(len, start, batchSize) * batchSize >= len
    ensures forall k: nat :: k < RunsToDrain(len, start, batchSize) ==> start + k * batchSize < len
  {
    var d := len - start;
    var n := RunsToDrain(len, start, batchSize);
    var rem := (d + batchSize - 1) % batchSize;
    assert d + batchSize - 1 == n * batchSize + rem;
    forall k: nat | k < n
      ensures start + k * batchSize < len
    {
      assert k * batchSize <= (n - 1) * batchSize by {
        MulStep(n - k, batchSize);
        assert (n - 1) * batchSize == k * batchSize + (n - 1 - k) * batchSize;
      }
      MulStep(n, batchSize);
    }
  }

  /** After exactly `RunsToDrain` runs the cursor reaches the end of the bank,
      every question from the cursor on has been sent once, and the next run
      is the exhausted one; after fewer runs the bank is not yet drained. */
  lemma RunsDrainBank(bank: seq<QuestionRecord>, start: int, batchSize: nat, chats: seq<ChatId>)
    requires chats != [] && bank != [] && 0 <= start <= |bank| && batchSize >= 1
    ensures var n := RunsToDrain(|bank|, start, batchSize);
      && CursorAfter(bank, start, batchSize, chats, n) == |bank|
      && SentAfter(bank, start, batchSize, chats, n) == bank[start..]
      && Run(bank, CursorAfter(bank, start, batchSize, chats, n), batchSize, chats).branch == Exhausted
    ensures forall k: nat :: k < RunsToDrain(|bank|, start, batchSize) ==>
      CursorAfter(bank, start, batchSize, chats, k) < |bank|
  {
    var n := RunsToDrain(|bank|, start, batchSize);
    DrainCount(|bank|, start, batchSize);
    RunsFromCursor(bank, start, batchSize, chats, n);
    ReachClosedForm(start, batchSize, |bank|, n);
    forall k: nat | k < n
      ensures CursorAfter(bank, start, batchSize, chats, k) < |bank|
    {
      RunsFromCursor(bank, start, batchSize, chats, k);
      ReachClosedForm(start, batchSize, |bank|, k);
    }
  }

  /** An exhausted bank stays exhausted: the cursor is never rewritten again. */
  lemma {:induction false} ExhaustedIsFixedPoint(bank: seq<QuestionRecord>, start: int, batchSize: nat, chats: seq<ChatId>, k: nat)
    requires chats != [] && bank != [] && start >= |bank|
    ensures CursorAfter(bank, start, batchSize, chats, k) == start
    ensures SentAfter(bank, start, batchSize, chats, k) == []
  {
    if k > 0 {
      ExhaustedIsFixedPoint(bank, start, batchSize, chats, k - 1);
    }
  }

  /** 45 questions, 20 a day, from cursor 0: the cursor goes 0, 20, 40, 45
      and the fourth run is the exhausted one. */
  lemma FortyFiveQuestions(bank: seq<QuestionRecord>, chats: seq<ChatId>)
    requires |bank| == 45 && chats != []
    ensures CursorAfter(bank, 0, QuestionsPerDay, chats, 1) == 20
    ensures CursorAfter(bank, 0, QuestionsPerDay, chats, 2) == 40
    ensures CursorAfter(bank, 0, QuestionsPerDay, chats, 3) == 45
    ensures RunsToDrain(45, 0, QuestionsPerDay) == 3
    ensures Run(bank, 45, QuestionsPerDay, chats).branch == Exhausted
  {
    RunsFromCursor(bank, 0, QuestionsPerDay, chats, 3);
    assert Reach(0, QuestionsPerDay, 45, 3) == 45;
  }

  /** The nested send loop: each question of the batch, in order, to each chat. */
  method Dispatch(batch: seq<QuestionRecord>, chats: seq<ChatId>) returns (trace: seq<Event>)
    ensures trace == PollTrace(batch, chats)
  {
    trace := [];
    for i := 0 to |batch|
      invariant trace == PollTrace(batch[..i], chats)
    {
      for j := 0 to |chats|
        invariant trace == PollTrace(batch[..i], chats) + PollsFor(batch[i], chats[..j])
      {
        trace := trace + [Poll(chats[j], batch[i])];
      }
      assert chats[..|chats|] == chats;
      assert batch[..i + 1][..i] == batch[..i];
    }
    assert batch[..|batch|] == batch;
  }

  /** The loop telling every chat that the bank is exhausted. */
  method NotifyAll(chats: seq<ChatId>, text: string) returns (trace: seq<Event>)
    ensures trace == Notices(chats, text)
  {
    trace := [];
    for j := 0 to |chats|
      invariant trace == Notices(chats[..j], text)
    {
      trace := trace + [Message(chats[j], text)];
    }
    assert chats[..|chats|] == chats;
  }

  /** The bank as loaded: empty when the file is missing. */
  function LoadBank(file: Option<string>): (bank: seq<QuestionRecord>)
    ensures file.None? ==> bank == []
    ensures forall i :: 0 <= i < |bank| ==> ValidRecord(bank[i])
  {
    if file.None? then [] else ParseContent(file.value)
  }

  /** The job's main block, over the bank file's text and the cursor file. */
  method RunDaily(bankFile: Option<string>, store: CursorFile, batchSize: nat, chats: seq<ChatId>) returns (result: RunResult)
    modifies store
    ensures result == Run(LoadBank(bankFile), old(ReadCursor(store.content)), batchSize, chats)
    ensures result.written.Some? ==> store.content == Some(ShowInt(result.written.value))
    ensures result.written.None? ==> store.content == old(store.content)
  {
    if chats == [] {
      return RunResult(NoChats, [], [], None);
    }
    var bank := ParseQuestions(bankFile);
    var start := store.Read();
    if bank == [] {
      result := RunResult(EmptyBank, [], [], None);
    } else if start >= |bank| {
      var trace := NotifyAll(chats, DoneText);
      result := RunResult(Exhausted, [], trace, None);
    } else {
      var end := Min(start + batchSize, |bank|);
      var batch := PySlice(bank, start, end);
      var trace := Dispatch(batch, chats);
      store.Write(end);
      result := RunResult(Pending, batch, trace, Some(end));
    }
  }
}
