# Daily quiz bot — a verified model

The quiz bot (`bot.py`) posts a bank of multiple-choice questions to a set of
chats as quiz polls, a fixed number per day. Each run does three things:

- It parses the bank file into question records. Blocks are separated by
  blank lines. Each block has a prompt line, four option lines labelled
  `a)` to `d)`, and an `Answer: <letter>` line.
- It reads the progress cursor, the index of the next question to send,
  from the progress file.
- It does one of the following:
  - stops, because the bank is empty;
  - tells every chat that the bank is exhausted;
  - sends the next batch of questions to every chat and writes the new
    cursor.

The project models this in five modules.

- `Text` (`text.dfy`) covers the string operations the bot relies on:
  - the whitespace test of `str.isspace`;
  - `strip`;
  - `split('\n')` and `'\n'.join`;
  - the blank-line block splitting done by `re.split(r'\n\s*\n', …)`.
- `QuestionBank` (`question_bank.dfy`) covers the parser:
  - option-label stripping;
  - the case-insensitive, leftmost `Answer:` search with its greedy `\s*`;
  - the per-block acceptance rules;
  - the `parse_questions` loop, as a method proved against a recursive
    specification.

  It also defines the file format written out (`Render`) and proves that
  parsing it gives back the records.
- `Progress` (`progress.dfy`) covers the cursor:
  - reading it as a signed decimal integer with a fallback to 0;
  - writing it as `str(index)`;
  - the class `CursorFile`, which holds the progress file's content.
- `Driver` (`driver.dfy`) covers one run of the main block (`Run`) and the
  same run written imperatively (`RunDaily`), with its nested dispatch
  loops. Sending is recorded as a trace of `Poll(chat, question)` and
  `Message(chat, text)` events. The module also proves what repeated runs
  do from a cursor in [0, len], with a non-empty bank, at least one chat
  and N ≥ 1: the cursor reaches the end of the bank after
  ⌈(len − start)/N⌉ runs, and every question from the cursor on is sent
  exactly once, in order.
- `Wrappers` (`wrappers.dfy`) holds `Option`.

The progress file may hold a negative number, either written by hand or
left behind by another tool. The code reads it with `int()`, which accepts
a sign, and never rejects the result. The slice `all_questions[start:end]`
then counts from the end of the bank. The model keeps this behaviour
(`PySlice`), and `NegativeCursorRuns` shows what it does. With 45 questions
and cursor −3, nothing is sent and 17 is written, so questions 0–16 are
skipped for good. The documented intent is a cursor that is never negative.
The code does not enforce that, and the model follows the code.

## Model

| member | source | states |
|---|---|---|
| Text.LStripSpec | bot.py:33 | `lstrip` drops exactly the leading whitespace: the dropped prefix is all whitespace and the kept suffix does not start with whitespace |
| Text.RStripSpec | bot.py:33 | `rstrip` drops exactly the trailing whitespace: the dropped suffix is all whitespace and the kept prefix does not end with whitespace |
| Text.Lines | bot.py:33 | `split('\n')` yields at least one piece and no piece contains a newline |
| Text.JoinLines | bot.py:33 | joining the pieces of `split('\n')` with newlines gives back the text |
| Text.LinesJoin | bot.py:33 | splitting newline-free lines joined with newlines gives back the lines |
| Text.StripUnchanged | bot.py:33 | a text that neither starts nor ends with whitespace is unchanged by `strip` |
| Text.GroupsAreRuns | bot.py:30 | every block is a non-empty run of lines none of which is whitespace-only |
| Text.GroupsKeepNonBlank | bot.py:30 | splitting into blocks keeps every non-blank line, in order, and drops only whitespace-only lines |
| Text.SplitBlocks | bot.py:30 | splitting always yields at least one block |
| Text.SplitEmpty | bot.py:30 | an empty text splits into one empty block, as `re.split` does |
| Text.GroupsSeparated | bot.py:29-30 | a non-empty run of blank lines between two parts splits the blocks of the whole into the blocks of each part |
| Text.BlankRunsCollapse | bot.py:29-30 | any run of whitespace-only lines between two blocks splits the text exactly as a single empty line does |
| QuestionBank.StripLabelSpec | bot.py:38 | a line with a lowercase `a)`–`d)` label loses the label and the whitespace after it and nothing else; any other line is unchanged |
| QuestionBank.StripLabels | bot.py:38 | the comprehension yields one option per option line |
| QuestionBank.LabelRoundTrip | bot.py:38 | label, any whitespace, then text that does not start with whitespace strips back to the text |
| QuestionBank.StripLabelExamples | bot.py:38 | `"b) Paris"` becomes `"Paris"`; `"Paris"` and `"B) Paris"` are unchanged |
| QuestionBank.SkipSpace | bot.py:42 | `\s*` ends at the first character after the tag that is not whitespace |
| QuestionBank.MatchAtGreedy | bot.py:42 | `Answer:\s*([a-d])` matches at a position exactly when the greedy reading does, and the captured letter is the only one the group can capture there |
| QuestionBank.Search | bot.py:42 | the search result is a match with no match before it, and no result means no match at or after the start |
| QuestionBank.FindAnswer | bot.py:42-44 | there is no answer exactly when the line has no case-insensitive match; otherwise the answer is one of a–d/A–D |
| QuestionBank.FindAnswerLeftmost | bot.py:42-46 | the leftmost match decides the captured letter |
| QuestionBank.AnswerIndexMapping | bot.py:46-47 | a/A gives 0, b/B gives 1, c/C gives 2 and d/D gives 3, both ways |
| QuestionBank.ParseLines | bot.py:34-54 | a block is too short exactly when it has fewer than 6 lines; the range guard never fails; an accepted record has 4 options, an index in [0,3] and line 0 as its prompt |
| QuestionBank.AcceptanceRule | bot.py:34-44 | a block is accepted exactly when it has at least 6 lines and line 5 has an answer match |
| QuestionBank.AcceptedRecord | bot.py:37-54 | an accepted record is line 0, lines 1–4 stripped of labels, and the index of the letter captured at the leftmost match in line 5 |
| QuestionBank.LinesPastAnswerIgnored | bot.py:37-41 | lines after line 5 do not affect the outcome |
| QuestionBank.ShortBlockSkipped | bot.py:33-35 | a block with fewer than 6 lines after strip and split contributes no record |
| QuestionBank.ParseAll | bot.py:32-56 | there are at most as many records as blocks, and every record is valid |
| QuestionBank.ParseAllAppend | bot.py:32-54 | the records come in block order: parsing concatenated blocks concatenates the records |
| QuestionBank.ParseContent | bot.py:30-56 | every record parsed from a file is valid |
| QuestionBank.BlankRunsDoNotMatter | bot.py:29-30 | the number of whitespace-only lines between two blocks does not change the parsed records |
| QuestionBank.ParseQuestions | bot.py:18-56 | a missing file gives no questions; otherwise the loop appends exactly the records of the accepted blocks, in order |
| QuestionBank.LetterFor | bot.py:46-47 | the letter written for an index is an answer letter that maps back to the index |
| QuestionBank.ParseRenderedBlock | bot.py:33-54 | a record written in the block format parses back to itself |
| QuestionBank.ParseRender | bot.py:30-54 | a bank written in the file format, with one empty line between blocks, parses back to the same records in the same order |
| Progress.ParseInt | bot.py:62 | `int()` succeeds exactly on an optional sign followed by one or more decimal digits |
| Progress.ShowNat | bot.py:69 | `str()` of a natural number is a non-empty digit string without a leading zero |
| Progress.ParseShowInt | bot.py:62-69 | `int(str(n)) == n` for every integer |
| Progress.ReadCursor | bot.py:58-64 | a missing file gives 0, text whose stripped form is not an integer gives 0, and otherwise the cursor is the integer the stripped text spells |
| Progress.WriteThenRead | bot.py:58-69 | the cursor `update_progress` writes is the cursor `get_progress` reads back |
| Progress.ReadCursorPlain | bot.py:60-62 | `"45\n"` reads as 45 |
| Progress.ReadCursorSigned | bot.py:60-62 | `"-3"` reads as −3 |
| Progress.ReadCursorFallback | bot.py:63-64 | `"forty"` and a whitespace-only file read as 0 |
| Progress.CursorFile.Read | bot.py:58-64 | reads the cursor from the file's current content |
| Progress.CursorFile.Write | bot.py:66-69 | the file then holds `str(index)`, and reading it gives `index` |
| Driver.PySlice | bot.py:130 | for bounds inside the bank the slice is the plain subsequence, and it is never longer than the bank |
| Driver.Notices | bot.py:126-127 | one done message per chat, in chat order |
| Driver.PollsFor | bot.py:135-137 | one poll of the question per chat, in chat order |
| Driver.PollTraceOrder | bot.py:134-137 | a batch's trace has batch length × chat count polls; with c chats, entry i·c+j is question i sent to chat j |
| Driver.EmptyBankRun | bot.py:122-123 | an empty bank sends nothing and writes no cursor |
| Driver.ExhaustedRun | bot.py:124-127 | with the cursor at or past the end, each chat gets exactly one `no question, we done` message and no cursor is written |
| Driver.PendingRun | bot.py:128-142 | with 0 ≤ start < len, the batch is `bank[start..end]` with end = min(start+N, len), start < end ≤ len, the batch has at most N questions, the trace has batch × chats polls, and end is written |
| Driver.NegativeCursorRuns | bot.py:129-142 | with 45 questions and N = 20, cursor −3 sends nothing and writes 17, and cursor −30 sends questions 15–34 and writes −10 |
| Driver.CursorAdvances | bot.py:122-142 | a sending run moves the cursor strictly forward and never past the end of the bank; no other run changes it |
| Driver.ReachClosedForm | bot.py:129 | applying the `min(start+N, len)` step k times gives min(start + k·N, len) |
| Driver.RunsFromCursor | bot.py:119-142 | from a cursor in [0, len], k runs send exactly the questions between the old and new cursor, in bank order |
| Driver.DrainCount | bot.py:129 | ⌈(len − start)/N⌉ batches reach the end of the bank, and fewer do not |
| Driver.RunsDrainBank | bot.py:119-142 | after ⌈(len − start)/N⌉ runs the cursor is len, every question from the start on has been sent once in order, and the next run is the exhausted one; after fewer runs the cursor is still below len |
| Driver.ExhaustedIsFixedPoint | bot.py:124-127 | once the cursor is at or past the end, further runs send no question and never move it |
| Driver.FortyFiveQuestions | bot.py:129-142 | 45 questions at 20 a day take the cursor 0 → 20 → 40 → 45, and then the bank is exhausted |
| Driver.Dispatch | bot.py:134-139 | the nested loops send every question of the batch, in order, to every chat, in chat order |
| Driver.NotifyAll | bot.py:126-127 | the loop sends the done text to every chat, in order |
| Driver.LoadBank | bot.py:119 | a missing bank file gives an empty bank; every loaded record is valid |
| Driver.RunDaily | bot.py:115-143 | the main block. Its branch, batch and trace are those of `Run` on the parsed bank and the cursor read. The progress file gets the new cursor when the run writes one and is untouched otherwise |

## Left out

- Sending polls and messages over HTTP is left out (bot.py:71-111). It is recorded as `Poll` and `Message` trace events. Request failures, status checks and their logging are not modelled.
- The missing-token branches (bot.py:73-75, 99-101) are left out. They only suppress sending, and the cursor advances regardless. Every send appears in the trace.
- Reading chat ids and the token from the environment is left out (bot.py:7-10). The chat list is a parameter. The no-chats exit (bot.py:116-117) is modelled as the `NoChats` branch.
- Opening, reading and writing files is left out (bot.py:21-26, 61, 68-69). The bank file and the progress file are given as their text, or `None` when missing. Text-mode newline translation and decoding errors are not modelled.
- Errors other than a missing file or an unparsable cursor are left out, for example a permission error. They end the program in the source. For the bank file this includes a decoding error, because bot.py:24 catches only a missing file.
- Progress.ReadCursor: the source reads a progress file that cannot be decoded as 0, because `UnicodeDecodeError` is a `ValueError` and bot.py:63 catches it. The model takes already-decoded text, so it cannot represent this case.
- `print` logging and the `time.sleep(2)` between polls are left out (bot.py:139).
- `Run` and `RunDaily` take the batch size as a parameter. The deployed constant 20 (bot.py:14) is `QuestionsPerDay`. The properties of repeated runs assume a batch size of at least 1, a cursor in [0, len], a non-empty bank and at least one chat. With no chats nothing is ever sent, and a negative cursor can skip questions for good (see `NegativeCursorRuns`).
- Progress.ParseInt: `int()` also accepts underscores between digits and non-ASCII decimal digits. The model accepts only an optional sign and ASCII digits 0–9.
- QuestionBank.FindAnswer: `re.IGNORECASE` folds case the Unicode way, so `ſ` (long s) would also match the `s` of `Answer:`. The model folds ASCII letters only.
- Text.SplitBlocks: the split on `\n\s*\n` of the stripped text is modelled as grouping maximal runs of non-blank lines.
  - This agrees with the regular expression because `\s` also matches newlines. A separator match therefore consumes every whitespace-only line between two non-blank lines.
  - The stripped text starts and ends with a non-blank line, so no empty block arises at either end.
  - This agreement is argued here, not proved.
- A block's own `strip()` is applied before its lines are split. For a block produced by this split, stripping can only change the first line's leading whitespace and the last line's trailing whitespace. The model applies it literally.
