# Journal entry model

A Dafny model of the `Journal` record of FS-Journal (`product/journal_types/journal.py`).
A journal has:

- a name, validated once at construction: it must be non-empty and at most
  `MAX_NAME_WIDTH` = 75 characters;
- a description, stored already wrapped to `MAX_WIDTH` = 79 characters per chunk;
- an append-only log of timestamped notes.

It renders this state as a fixed-width text report: a `### name ####…` title
line, a `Description:` section and an `Additional Notes:` section.

The model has three modules:

- `JournalText` (`journal_text.dfy`) holds the pure text layout. It contains:
  - `Wrap`, the wrapping rule, written as chunks;
  - `Unwrap`, its positional inverse;
  - `LeftJustify`, the padding that Python's `str.ljust` performs;
  - the notes log as a function of the notes appended (`NoteBlock`, `AppendedNotes`, `NotesOf`);
  - the lemmas about all of these.
- `Journal` (`journal.dfy`) holds the class `Journal`. Its fields are `name` (a `const`), `description` and `notes`. Two ghost fields record what produced them:
  - `rawDescription`, the text last given to `SetDescription`;
  - `log`, every note appended, in call order.

  `Valid()` ties the two stored strings to those ghost fields: `description == Wrap(rawDescription)` and `notes == NotesOf(log)`.
  The wrapping loop of `__insert_width_newline` is the method `InsertWidthNewline`, proved equal to `Wrap`.
  The two mutators are methods with `modifies this`. The renderers are functions over the fields.
- `JournalExamples` (`journal_examples.dfy`) holds sessions from the repository's unit tests, proved to render the expected text exactly.

The wrapping rule is read from the code. `formatted_str[1:]` drops only the leading newline, so a non-empty wrapped text starts with two spaces. Every chunk after the first follows `"\n  "`. A one-line description therefore renders as `"  " + text`, and a one-line note body sits six spaces in: four from `append_notes` and two from the wrap.

Two consequences of the code are easy to get wrong, and the model follows the code and its unit tests on both:

- a description of exactly 2 × 79 characters renders as two lines, each indented by two spaces (`product/unittests_all/test_journal.py:127-133`), not as two bare chunks;
- "Lord of the Fries" has 17 characters, so its title line is padded with 57 `#` (`product/unittests_all/test_journal.py:85`).

A wrapped line is `MAX_WIDTH + 2` characters wide: the two-space indent plus a full chunk. The first line of a note body is wider still. `WrapIsIndentedChunks` states this layout exactly.

## Model

| member | source | states |
|---|---|---|
| `Journal.Journal.CheckName` | product/journal_types/journal.py:27-39 | the name passes exactly when it has 1 to 75 characters; it fails as empty exactly when it has none, and as too long (with its length and the limit 75) exactly when it has more than 75 |
| `Journal.Journal.constructor` | product/journal_types/journal.py:20-25 | a journal built from a valid name holds that name, an empty description and an empty notes log, and satisfies the class invariant |
| `Journal.Journal.New` | product/journal_types/journal.py:20-39 | creation succeeds exactly when the name passes validation, otherwise returns validation's error; a created journal is fresh, keeps the name verbatim and starts with empty description and notes |
| `Journal.Journal.InsertWidthNewline` | product/journal_types/journal.py:43-60 | the character loop that inserts `"\n  "` before every 79th character and then drops the first character returns exactly `Wrap(s)` (empty for empty `s`) |
| `JournalText.WrapSnoc` | product/journal_types/journal.py:51-54 | wrapping one more character appends it to the current line, or opens a new `"\n  "` line first when the text so far is a whole number of 79-character chunks |
| `JournalText.WrapLength` | product/journal_types/journal.py:56-60 | only the empty text wraps to the empty text; a non-empty text wraps to something that starts with two spaces and is `len(s) + 3·ceil(len(s)/79) − 1` long |
| `JournalText.WrapIsIndentedChunks` | product/journal_types/journal.py:43-60 | the wrapped text is the 79-character chunks of the input (last possibly shorter), each prefixed by two spaces, joined by single newlines |
| `JournalText.Chunks` | product/journal_types/journal.py:51-53 | the chunks concatenate back to the input, number `ceil(len(s)/79)`, are non-empty and at most 79 long, all but the last exactly 79 |
| `JournalText.UnwrapWrap` | product/journal_types/journal.py:43-60 | removing the inserted indents and newlines by position gives back the original text: wrapping loses nothing |
| `JournalText.WrapNewlines` | product/journal_types/journal.py:51-53 | wrapping a non-empty text adds exactly `ceil(len(s)/79) − 1` newlines to those it already had |
| `Journal.Journal.SetDescription` | product/journal_types/journal.py:62-68 | the description becomes the wrapped form of the new text, with no length limit; name, notes and the notes history are unchanged |
| `JournalText.NoteBlock` | product/journal_types/journal.py:86-88 | a note contributes a block exactly when its text is non-empty |
| `JournalText.NoteBlockShort` | product/journal_types/journal.py:86-88 | a non-empty note of at most 79 characters gives `"  [" + ts + "]\n      " + text` (body six spaces in) |
| `Journal.Journal.AppendNotes` | product/journal_types/journal.py:70-90 | the notes become the old notes, a `"\n"` separator iff they were non-empty, then the note's timestamped block; the note is recorded at the end of the history; the description is unchanged |
| `JournalText.AppendedNotesShape` | product/journal_types/journal.py:84-90 | the old log is a prefix of the new one; a newline follows it exactly when it was non-empty; the new log ends with the note's block; an empty note leaves an empty log empty and adds a bare `"\n"` to a non-empty one |
| `JournalText.NotesOfPrefix` | product/journal_types/journal.py:90 | over any further sequence of appends the earlier log stays a prefix: the log is never rewritten |
| `JournalText.NotesOfIsJoin` | product/journal_types/journal.py:84-90 | the log equals the blocks of the appended notes, from the first non-empty note on, joined by single newlines and in call order; each later empty note is a blank line |
| `JournalText.FirstWritten` | product/journal_types/journal.py:84-86 | the index where the log starts is that of the first non-empty note: every note before it is empty, and the note there (if any) is not |
| `JournalText.NotesBeforeFirstWritten` | product/journal_types/journal.py:84-86 | the log stays empty until the first non-empty note is appended |
| `JournalText.LeftJustify` | product/journal_types/journal.py:104 | `str.ljust`: the text is kept as a prefix and padded with the fill character up to the width, and is unchanged when already that long |
| `Journal.Journal.FprintName` | product/journal_types/journal.py:92-104 | for a valid name the title is exactly 79 characters. It starts with `"### " + name`. When the name is shorter than 75 it has one space after the name and `#` everywhere after that. At 75 it is `"### " + name` alone |
| `Journal.Journal.FprintDesc` | product/journal_types/journal.py:106-114 | the description section is the `"Description:\n"` heading followed by the wrapped form of the last description set: its 79-character chunks, each indented by two spaces, one per line. Removing that layout gives back the description set |
| `Journal.Journal.FprintNote` | product/journal_types/journal.py:116-131 | the notes section is the `"Additional Notes:\n"` heading followed by the blocks of the appended notes, from the first non-empty note on, joined by newlines |
| `Journal.Journal.Fprint` | product/journal_types/journal.py:133-153 | the report's first 79 characters are the title line, then a newline, then the description section, a newline and the notes section |
| `JournalExamples.LordOfTheFriesBanner` | product/unittests_all/test_journal.py:81-86 | the title line `FprintName` renders for any journal named "Lord of the Fries" is `"### Lord of the Fries "` followed by 57 `#` |
| `JournalExamples.FullReport` | product/unittests_all/test_journal.py:173-192 | naming, describing and appending two notes renders the exact expected report, with the two note blocks in call order |
| `JournalExamples.EmptyThenFullNote` | product/unittests_all/test_journal.py:148-171 | an empty note on an empty log leaves no trace; the next one-line note is the first block, with no separator and its body six spaces in |

## Left out

- The clock: `datetime.now()` (`product/journal_types/journal.py:88`) is replaced by a `timestamp` parameter of `AppendNotes`. The model therefore says nothing about the timestamp's format.
- The text of the two `ValueError` messages (`product/journal_types/journal.py:13-14`). `NameError` carries the same data: the kind of failure, the name's length and the limit. Formatting an integer into the message is not modelled.
- `MAX_DESC_LEN` and `MAX_NOTE_WIDTH` (`product/journal_types/journal.py:9-10`) are declared in the source but never used, so they are absent here. `SetDescription` accepts texts of any length, as the source does.
- The file or directory existence check is only a comment in the source (`product/journal_types/journal.py:41`), so there is nothing to model.
- Python attributes can be reassigned from outside the class. Here `name` is a `const`, since no operation of the class changes it, and `description` and `notes` change only through the two methods.
- Journal.Journal.constructor: requires a valid name. A Dafny constructor cannot fail, so raising on an invalid name is modelled by `New`, which validates first and calls the constructor only on success.
- Characters are Dafny `char`s. Python counts code points, so wrapping and padding count code points here too. Display width and grapheme clusters are not modelled, as in the source.
