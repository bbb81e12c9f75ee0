/**
 * A journal entry: a validated name fixed at construction, a description
 * stored already wrapped, and an append-only log of timestamped notes,
 * together with the fixed-width text report built from them.
 */
module Journal {
  import opened JournalText

  /** Why a name was refused. */
  datatype NameError =
    | EmptyName
    | NameTooLong(length: nat, limit: nat)

  /** Outcome of validating a name. */
  datatype Check = Pass | Fail(error: NameError)

  /** A journal, or the reason it could not be created. */
  datatype Result<T> = Ok(value: T) | Err(error: NameError)

  class Journal {
    /** The name; no operation changes it after construction. */
    const name: string
    /** The last description set, in wrapped form. */
    var description: string
    /** The formatted log of every note appended so far. */
    var notes: string

    /** The text last given to SetDescription, before wrapping. */
    ghost var rawDescription: string
    /** Every note appended so far, in call order. */
    ghost var log: seq<Note>

    ghost predicate Valid()
      reads this
    {
      && CheckName(name) == Pass
      && description == Wrap(rawDescription)
      && notes == NotesOf(log)
    }

    /**
     * Validates a name: refused when empty, or when longer than
     * MaxNameWidth characters; accepted otherwise.
     */
    static function CheckName(name: string): (r: Check)
      ensures r == Pass <==> 0 < |name| <= MaxNameWidth
      ensures r == Fail(EmptyName) <==> |name| == 0
      ensures r == Fail(NameTooLong(|name|, MaxNameWidth)) <==> |name| > MaxNameWidth
    {
      if |name| == 0 then Fail(EmptyName)
      else if |name| > MaxNameWidth then Fail(NameTooLong(|name|, MaxNameWidth))
      else Pass
    }

    /** Sets up a journal whose name has already been validated; New is the checked entry point. */
    constructor (name: string)
      requires CheckName(name) == Pass
      ensures Valid()
      ensures this.name == name && description == [] && notes == []
      ensures rawDescription == [] && log == []
    {
      this.name := name;
      description := [];
      notes := [];
      rawDescription := [];
      log := [];
    }

    /**
     * Creates a journal named `name`, or reports why the name is refused.
     * A new journal has an empty description and an empty notes log.
     */
    static method New(name: string) returns (r: Result<Journal>)
      ensures r.Ok? <==> CheckName(name) == Pass
      ensures r.Err? ==> CheckName(name) == Fail(r.error)
      ensures r.Ok? ==> fresh(r.value) && r.value.Valid() && r.value.name == name
      ensures r.Ok? ==> r.value.description == [] && r.value.notes == []
      ensures r.Ok? ==> r.value.rawDescription == [] && r.value.log == []
    {
      var check := CheckName(name);
      if check.Fail? {
        return Err(check.error);
      }
      var j := new Journal(name);
      return Ok(j);
    }

    /**
     * The wrapping loop: walks `s` one character at a time, opening a new
     * indented line before every MaxWidth-th character, then drops the
     * newline the first character opened.
     */
    static method InsertWidthNewline(s: string) returns (r: string)
      ensures r == Wrap(s)
    {
      var formatted: string := [];
      for i := 0 to |s|
        invariant formatted == if i == 0 then [] else "\n" + Wrap(s[..i])
      {
        WrapSnoc(s[..i], s[i]);
        assert s[..i + 1] == s[..i] + [s[i]];
        formatted := formatted + Break(i) + [s[i]];
      }
      assert s[..|s|] == s;
      if |formatted| == 0 {
        return formatted;
      }
      return formatted[1..];
    }

    /** Replaces the description with the wrapped form of `desc`; no length limit applies. */
    method SetDescription(desc: string)
      requires Valid()
      modifies this
      ensures Valid()
      ensures description == Wrap(desc) && rawDescription == desc
      ensures notes == old(notes) && log == old(log)
    {
      description := InsertWidthNewline(desc);
      rawDescription := desc;
    }

    /**
     * Appends a note stamped with `timestamp` to the log: a newline separator
     * when the log already holds something, then, for a non-empty note, its
     * timestamp line and wrapped text.
     */
    method AppendNotes(note: string, timestamp: string)
      requires Valid()
      modifies this
      ensures Valid()
      ensures notes == AppendedNotes(old(notes), timestamp, note)
      ensures log == old(log) + [Note(timestamp, note)]
      ensures description == old(description) && rawDescription == old(rawDescription)
    {
      var newNote: string := if |notes| == 0 then [] else "\n";
      ghost var separator := newNote;
      if |note| > 0 {
        var body := InsertWidthNewline(note);
        newNote := newNote + ("  [" + timestamp + "]\n    " + body);
      }
      AppendedNotesSplit(notes, separator, newNote, timestamp, note);
      notes := notes + newNote;
      ghost var entry := Note(timestamp, note);
      NotesOfSnoc(log, entry);
      log := log + [entry];
    }

    /**
     * The title line: "### " and the name, one space when there is room,
     * then '#' up to MaxWidth characters.
     */
    function FprintName(): (r: string)
      ensures |r| == if |name| <= MaxNameWidth then MaxWidth else |name| + 4
      ensures r[..|name| + 4] == "### " + name
      ensures |name| < MaxNameWidth ==> r[|name| + 4] == ' '
      ensures forall i :: |name| + 5 <= i < |r| ==> r[i] == '#'
      ensures |name| >= MaxNameWidth ==> r == "### " + name
    {
      var title := "### " + name;
      var spaced := if |title| < MaxWidth then title + " " else title;
      LeftJustify(spaced, MaxWidth, '#')
    }

    /**
     * The description section: its heading, then the text last set, cut into
     * MaxWidth-character chunks, each indented by two spaces, one per line;
     * removing that layout gives back the text last set.
     */
    function FprintDesc(): (r: string)
      reads this
      requires Valid()
      ensures r == "Description:\n" + Wrap(rawDescription)
      ensures r == "Description:\n" + Join(Indent(Chunks(rawDescription)))
      ensures Unwrap(r[|"Description:\n"|..]) == rawDescription
    {
      UnwrapWrap(rawDescription);
      WrapIsIndentedChunks(rawDescription);
      "Description:\n" + description
    }

    /**
     * The notes section: its heading, then the block of every note from the
     * first non-empty one on, one per line.
     */
    function FprintNote(): (r: string)
      reads this
      requires Valid()
      ensures r == "Additional Notes:\n" + Join(Blocks(log[FirstWritten(log)..]))
    {
      NotesOfIsJoin(log);
      "Additional Notes:\n" + notes
    }

    /**
     * The whole report: the title line, then the description section and the
     * notes section, separated by single newlines.
     */
    function Fprint(): (r: string)
      reads this
      requires Valid()
      ensures |r| > MaxWidth
      ensures r[..MaxWidth] == FprintName() && r[MaxWidth] == '\n'
      ensures r[MaxWidth + 1..] == FprintDesc() + "\n" + FprintNote()
    {
      FprintName() + "\n" + FprintDesc() + "\n" + FprintNote()
    }
  }
}
