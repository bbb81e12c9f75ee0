/**
 * Text layout of a journal entry: fixed-width wrapping of free text, the
 * title banner padding, and the append-only notes log.
 *
 * Everything here is a pure function of strings; the `Journal` module uses
 * these functions as the specification of its fields and methods.
 */
module JournalText {

  /** Width of a rendered line (journal.py's MAX_WIDTH). */
  const MaxWidth: nat := 79

  /** Longest accepted journal name: "### " followed by the name fits in MaxWidth. */
  const MaxNameWidth: nat := MaxWidth - 4

  /** Number of MaxWidth-character chunks needed to hold n characters. */
  function ChunkCount(n: nat): nat
  {
    (n + MaxWidth - 1) / MaxWidth
  }

  // ---------------------------------------------------------------------------
  // Wrapping
  // ---------------------------------------------------------------------------

  /**
   * The wrapped form of `s`: `s` cut into chunks of MaxWidth characters (the
   * last one possibly shorter), each chunk indented by two spaces, chunks
   * separated by a newline. The empty text wraps to the empty text.
   */
  function Wrap(s: string): (r: string)
    decreases |s|
  {
    if s == [] then []
    else if |s| <= MaxWidth then "  " + s
    else "  " + s[..MaxWidth] + "\n" + Wrap(s[MaxWidth..])
  }

  /**
   * Only the empty text wraps to the empty text; any other text gains a
   * two-space indent and, per chunk after the first, a newline and an indent.
   */
  lemma {:induction false} WrapLength(s: string)
    ensures |Wrap(s)| == if s == [] then 0 else |s| + 3 * ChunkCount(|s|) - 1
    ensures s == [] <==> Wrap(s) == []
    ensures s != [] ==> Wrap(s)[..2] == "  "
    decreases |s|
  {
    if |s| > MaxWidth {
      WrapLength(s[MaxWidth..]);
    }
  }

  /** What the wrapping loop inserts in front of the character at index i. */
  function Break(i: nat): string
  {
    if i % MaxWidth == 0 then "\n  " else ""
  }

  /**
   * Wrapping one more character: it either continues the current line or,
   * when the text so far fills whole lines, opens a new indented line.
   */
  lemma {:induction false} WrapSnoc(t: string, c: char)
    ensures t == [] ==> Wrap(t + [c]) == "  " + [c]
    ensures t != [] ==> Wrap(t + [c]) == Wrap(t) + Break(|t|) + [c]
    decreases |t|
  {
    if t == [] {
      assert t + [c] == [c];
    } else if |t| < MaxWidth {
    } else if |t| == MaxWidth {
      var u := t + [c];
      assert u[..MaxWidth] == t && u[MaxWidth..] == [c];
    } else {
      var u := t + [c];
      var rest := t[MaxWidth..];
      assert u[..MaxWidth] == t[..MaxWidth];
      assert u[MaxWidth..] == rest + [c];
      WrapSnoc(rest, c);
      assert |rest| % MaxWidth == |t| % MaxWidth;
    }
  }

  /**
   * Undoes Wrap by position: drops the two-space indent of every line and
   * the newline that ends every full line.
   */
  function Unwrap(w: string): (r: string)
    decreases |w|
  {
    if |w| <= 2 then []
    else if |w| <= MaxWidth + 2 then w[2..]
    else w[2..MaxWidth + 2] + Unwrap(w[MaxWidth + 3..])
  }

  /** Wrapping loses nothing: removing the inserted indentation and newlines gives back the text. */
  lemma {:induction false} UnwrapWrap(s: string)
    ensures Unwrap(Wrap(s)) == s
    decreases |s|
  {
    if s == [] {
    } else if |s| <= MaxWidth {
      assert Wrap(s)[2..] == s;
    } else {
      var w := Wrap(s);
      var rest := s[MaxWidth..];
      assert w[2..MaxWidth + 2] == s[..MaxWidth];
      assert w[MaxWidth + 3..] == Wrap(rest);
      UnwrapWrap(rest);
      assert s == s[..MaxWidth] + rest;
    }
  }

  /** Number of newline characters in s. */
  function NewlineCount(s: string): (n: nat)
    decreases |s|
  {
    if s == [] then 0 else (if s[0] == '\n' then 1 else 0) + NewlineCount(s[1..])
  }

  lemma {:induction false} NewlineCountConcat(a: string, b: string)
    ensures NewlineCount(a + b) == NewlineCount(a) + NewlineCount(b)
    decreases |a|
  {
    if a == [] {
      assert a + b == b;
    } else {
      assert (a + b)[1..] == a[1..] + b;
      NewlineCountConcat(a[1..], b);
    }
  }

  /** Wrapping a non-empty text inserts exactly one newline fewer than it has chunks. */
  lemma {:induction false} WrapNewlines(s: string)
    requires s != []
    ensures NewlineCount(Wrap(s)) == NewlineCount(s) + ChunkCount(|s|) - 1
    decreases |s|
  {
    if |s| <= MaxWidth {
      NewlineCountConcat("  ", s);
      assert NewlineCount("  ") == 0;
    } else {
      var head, rest := s[..MaxWidth], s[MaxWidth..];
      WrapNewlines(rest);
      NewlineCountConcat("  " + head + "\n", Wrap(rest));
      NewlineCountConcat("  " + head, "\n");
      NewlineCountConcat("  ", head);
      NewlineCountConcat(head, rest);
      assert s == head + rest;
      assert NewlineCount("  ") == 0;
      assert NewlineCount("\n") == 1;
    }
  }

  // ---------------------------------------------------------------------------
  // Lines
  // ---------------------------------------------------------------------------

  /** The texts of `lines` run together. */
  function Concat(lines: seq<string>): (r: string)
    decreases |lines|
  {
    if lines == [] then [] else lines[0] + Concat(lines[1..])
  }

  /** The texts of `lines` separated by single newlines (Python's "\n".join). */
  function Join(lines: seq<string>): (r: string)
    decreases |lines|
  {
    if lines == [] then []
    else if |lines| == 1 then lines[0]
    else lines[0] + "\n" + Join(lines[1..])
  }

  /** Each line of `lines` prefixed with two spaces. */
  function Indent(lines: seq<string>): (r: seq<string>)
    ensures |r| == |lines|
    ensures forall i :: 0 <= i < |r| ==> r[i] == "  " + lines[i]
  {
    seq(|lines|, i requires 0 <= i < |lines| => "  " + lines[i])
  }

  /**
   * `s` cut into consecutive chunks of MaxWidth characters: together they
   * spell `s`, none is empty, all but the last are full.
   */
  function Chunks(s: string): (cs: seq<string>)
    ensures Concat(cs) == s
    ensures |cs| == ChunkCount(|s|)
    ensures forall i :: 0 <= i < |cs| ==> 0 < |cs[i]| <= MaxWidth
    ensures forall i :: 0 <= i < |cs| - 1 ==> |cs[i]| == MaxWidth
    decreases |s|
  {
    if s == [] then []
    else if |s| <= MaxWidth then [s]
    else
      var cs := [s[..MaxWidth]] + Chunks(s[MaxWidth..]);
      assert cs[1..] == Chunks(s[MaxWidth..]);
      cs
  }

  /**
   * The wrapped text is the chunks of `s`, each indented by two spaces, one
   * chunk per line.
   */
  lemma {:induction false} WrapIsIndentedChunks(s: string)
    ensures Wrap(s) == Join(Indent(Chunks(s)))
    decreases |s|
  {
    if s == [] {
    } else if |s| <= MaxWidth {
    } else {
      var rest := s[MaxWidth..];
      WrapIsIndentedChunks(rest);
      var lines := Indent(Chunks(s));
      assert lines[1..] == Indent(Chunks(rest));
    }
  }

  // ---------------------------------------------------------------------------
  // Title banner
  // ---------------------------------------------------------------------------

  /** `n` copies of `c`. */
  function Repeat(c: char, n: nat): (r: string)
    ensures |r| == n
    ensures forall i :: 0 <= i < n ==> r[i] == c
  {
    seq(n, _ => c)
  }

  /**
   * Python's str.ljust: `s` padded on the right with `fill` up to `width`
   * characters; `s` itself when it is already that long.
   */
  function LeftJustify(s: string, width: nat, fill: char): (r: string)
    ensures |r| == if |s| < width then width else |s|
    ensures r[..|s|] == s
    ensures forall i :: |s| <= i < |r| ==> r[i] == fill
  {
    if |s| < width then s + Repeat(fill, width - |s|) else s
  }

  // ---------------------------------------------------------------------------
  // Notes log
  // ---------------------------------------------------------------------------

  /** One call that appended a note: the time it was stamped with and its text. */
  datatype Note = Note(timestamp: string, text: string)

  /**
   * The block one note adds to the log: the bracketed timestamp on an
   * indented line, then the wrapped text indented four more spaces. An empty
   * note adds no block.
   */
  function NoteBlock(timestamp: string, text: string): (r: string)
    ensures r == [] <==> text == []
  {
    if text == [] then [] else "  [" + timestamp + "]\n    " + Wrap(text)
  }

  /** A note that fits on one line sits six spaces in, below its timestamp. */
  lemma NoteBlockShort(timestamp: string, text: string)
    requires 0 < |text| <= MaxWidth
    ensures NoteBlock(timestamp, text) == "  [" + timestamp + "]\n      " + text
  {
  }

  /**
   * The log after appending one note to `notes`: the old log, a newline
   * separator when the old log is non-empty, then the note's block.
   */
  function AppendedNotes(notes: string, timestamp: string, text: string): (r: string)
  {
    notes + (if notes == [] then [] else "\n") + NoteBlock(timestamp, text)
  }

  /**
   * Appending never rewrites the log: the old log is a prefix of the new
   * one, followed by a newline exactly when the old log was non-empty, and
   * the new log ends with the note's block. An empty note therefore leaves
   * an empty log empty and adds a bare newline to a non-empty one.
   */
  lemma AppendedNotesShape(notes: string, timestamp: string, text: string)
    ensures var r := AppendedNotes(notes, timestamp, text);
      && notes <= r
      && |r| == |notes| + (if notes == [] then 0 else 1) + |NoteBlock(timestamp, text)|
      && (notes != [] ==> r[|notes|] == '\n')
      && r[|r| - |NoteBlock(timestamp, text)|..] == NoteBlock(timestamp, text)
      && (text == [] && notes == [] ==> r == [])
      && (text == [] && notes != [] ==> r == notes + "\n")
  {
  }

  /** The three parts the append adds up: old log, separator, block. */
  lemma AppendedNotesSplit(notes: string, separator: string, added: string, timestamp: string, text: string)
    requires separator == if notes == [] then [] else "\n"
    requires added == separator + NoteBlock(timestamp, text)
    ensures notes + added == AppendedNotes(notes, timestamp, text)
  {
  }

  /** The log built by appending the notes of `log` in order to an empty log. */
  function NotesOf(log: seq<Note>): (r: string)
    decreases |log|
  {
    if log == [] then []
    else
      var last := log[|log| - 1];
      AppendedNotes(NotesOf(log[..|log| - 1]), last.timestamp, last.text)
  }

  lemma NotesOfSnoc(log: seq<Note>, last: Note)
    ensures NotesOf(log + [last]) == AppendedNotes(NotesOf(log), last.timestamp, last.text)
  {
    assert (log + [last])[..|log|] == log;
  }

  /**
   * Index of the first non-empty note in `log` (|log| when there is none):
   * the empty notes before it left the log empty.
   */
  function FirstWritten(log: seq<Note>): (k: nat)
    ensures k <= |log|
    ensures forall i :: 0 <= i < k ==> log[i].text == []
    ensures k < |log| ==> log[k].text != []
    decreases |log|
  {
    if log == [] then 0
    else if log[0].text != [] then 0
    else 1 + FirstWritten(log[1..])
  }

  /** The block of every note of `log`, in order. */
  function Blocks(log: seq<Note>): (r: seq<string>)
    ensures |r| == |log|
    ensures forall i :: 0 <= i < |r| ==> r[i] == NoteBlock(log[i].timestamp, log[i].text)
  {
    seq(|log|, i requires 0 <= i < |log| => NoteBlock(log[i].timestamp, log[i].text))
  }

  lemma {:induction false} JoinSnoc(lines: seq<string>, line: string)
    requires lines != []
    ensures Join(lines + [line]) == Join(lines) + "\n" + line
    decreases |lines|
  {
    if |lines| == 1 {
      assert (lines + [line])[1..] == [line];
    } else {
      assert (lines + [line])[1..] == lines[1..] + [line];
      JoinSnoc(lines[1..], line);
    }
  }

  lemma {:induction false} FirstWrittenSnoc(log: seq<Note>, last: Note)
    ensures FirstWritten(log + [last]) ==
      if FirstWritten(log) < |log| then FirstWritten(log)
      else if last.text != [] then |log| else |log| + 1
    decreases |log|
  {
    if log == [] {
      assert log + [last] == [last];
      assert [last][1..] == [];
    } else {
      assert (log + [last])[0] == log[0];
      if log[0].text == [] {
        assert (log + [last])[1..] == log[1..] + [last];
        FirstWrittenSnoc(log[1..], last);
      }
    }
  }

  lemma DropSnoc(log: seq<Note>, last: Note, k: nat)
    requires k <= |log|
    ensures (log + [last])[k..] == log[k..] + [last]
  {
  }

  lemma BlocksSnoc(log: seq<Note>, last: Note)
    ensures Blocks(log + [last]) == Blocks(log) + [NoteBlock(last.timestamp, last.text)]
  {
    var l, r := Blocks(log + [last]), Blocks(log) + [NoteBlock(last.timestamp, last.text)];
    assert |l| == |r|;
    forall i | 0 <= i < |l| ensures l[i] == r[i] {
      if i < |log| {
        assert (log + [last])[i] == log[i];
      }
    }
  }

  /** Blocks of a non-empty note, joined after other blocks, make a non-empty text. */
  lemma JoinNonEmpty(lines: seq<string>)
    requires lines != [] && lines[0] != []
    ensures Join(lines) != []
  {
    if |lines| > 1 {
      assert Join(lines) == lines[0] + "\n" + Join(lines[1..]);
    }
  }

  /**
   * The log is the blocks of its notes joined by newlines, starting at the
   * first non-empty note: empty notes before it leave no trace, each later
   * empty note leaves a blank line.
   */
  lemma {:induction false} NotesOfIsJoin(log: seq<Note>)
    ensures NotesOf(log) == Join(Blocks(log[FirstWritten(log)..]))
    decreases |log|
  {
    if log != [] {
      var prev, last := log[..|log| - 1], log[|log| - 1];
      var k := FirstWritten(prev);
      var block := NoteBlock(last.timestamp, last.text);
      assert log == prev + [last];
      NotesOfIsJoin(prev);
      FirstWrittenSnoc(prev, last);
      var acc := NotesOf(prev);
      assert NotesOf(log) == AppendedNotes(acc, last.timestamp, last.text);
      if k == |prev| {
        assert acc == [];
        if last.text != [] {
          assert log[|prev|..] == [last];
        }
      } else {
        NotesOfIsJoinWritten(prev, last, k);
      }
    }
  }

  /** The step of NotesOfIsJoin once the log has started: the new block is joined after a newline. */
  lemma NotesOfIsJoinWritten(prev: seq<Note>, last: Note, k: nat)
    requires k == FirstWritten(prev) < |prev|
    requires NotesOf(prev) == Join(Blocks(prev[k..]))
    ensures AppendedNotes(NotesOf(prev), last.timestamp, last.text) == Join(Blocks((prev + [last])[k..]))
  {
    var bs := Blocks(prev[k..]);
    var block := NoteBlock(last.timestamp, last.text);
    JoinNonEmpty(bs);
    assert AppendedNotes(NotesOf(prev), last.timestamp, last.text) == Join(bs) + "\n" + block;
    JoinSnoc(bs, block);
    DropSnoc(prev, last, k);
    BlocksSnoc(prev[k..], last);
  }

  /** While every note is empty the log is empty: FirstWritten is then |log|. */
  lemma FirstWrittenAllEmpty(log: seq<Note>)
    requires forall i :: 0 <= i < |log| ==> log[i].text == []
    ensures FirstWritten(log) == |log|
  {
  }

  /** The log stays empty until the first non-empty note is appended. */
  lemma NotesBeforeFirstWritten(log: seq<Note>)
    ensures NotesOf(log[..FirstWritten(log)]) == []
  {
    var before := log[..FirstWritten(log)];
    FirstWrittenAllEmpty(before);
    NotesOfIsJoin(before);
    assert before[|before|..] == [];
  }

  /** The log only grows: later appends never change what earlier ones wrote. */
  lemma {:induction false} NotesOfPrefix(log: seq<Note>, more: seq<Note>)
    ensures NotesOf(log) <= NotesOf(log + more)
    decreases |more|
  {
    if more == [] {
      assert log + more == log;
    } else {
      var front := more[..|more| - 1];
      NotesOfPrefix(log, front);
      assert (log + more)[..|log + more| - 1] == log + front;
    }
  }
}
