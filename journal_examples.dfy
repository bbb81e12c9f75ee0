/**
 * Concrete sessions with a journal, with the exact text they render. The
 * clock is a parameter, so each timestamp appears verbatim between brackets.
 */
module JournalExamples {
  import opened JournalText
  import opened Journal

  /** The title line of a journal named "Lord of the Fries": one space, then '#' up to the full width. */
  lemma LordOfTheFriesBanner(journal: Journal)
    requires journal.name == "Lord of the Fries"
    ensures journal.FprintName() == "### Lord of the Fries " + Repeat('#', 57)
  {
  }

  /**
   * A journal with a description and two notes renders its title line, its
   * one-line description and both note blocks in call order, each section
   * on its own lines. Every one-line text is indented two spaces by the
   * wrapping; a note's text four more.
   */
  method FullReport(firstStamp: string, secondStamp: string) returns (report: string)
    ensures report ==
      "### Lord of the Fries " + Repeat('#', 57) + "\n"
      + ("Description:\n" + ("  " + "A movie about human nature and potatoes")) + "\n"
      + ("Additional Notes:\n"
         + ("  [" + firstStamp + "]\n    " + ("  " + "Parody of another movie")
            + "\n"
            + ("  [" + secondStamp + "]\n    " + ("  " + "No sequel planned"))))
  {
    var created := Journal.New("Lord of the Fries");
    var journal := created.value;
    journal.SetDescription("A movie about human nature and potatoes");
    assert journal.description == "  " + "A movie about human nature and potatoes";
    journal.AppendNotes("Parody of another movie", firstStamp);
    ghost var firstBlock := "  [" + firstStamp + "]\n    " + ("  " + "Parody of another movie");
    assert journal.notes == firstBlock;
    journal.AppendNotes("No sequel planned", secondStamp);
    ghost var secondBlock := "  [" + secondStamp + "]\n    " + ("  " + "No sequel planned");
    assert journal.notes == firstBlock + "\n" + secondBlock;
    LordOfTheFriesBanner(journal);
    report := journal.Fprint();
  }

  /**
   * An empty note on an empty log leaves the log empty, so a later note is
   * the first block and gets no separator.
   */
  method EmptyThenFullNote(emptyStamp: string, stamp: string, text: string) returns (section: string)
    requires 0 < |text| <= MaxWidth
    ensures section == "Additional Notes:\n" + ("  [" + stamp + "]\n    " + ("  " + text))
  {
    var created := Journal.New("Lord of the Fries");
    var journal := created.value;
    journal.AppendNotes("", emptyStamp);
    assert journal.notes == [];
    journal.AppendNotes(text, stamp);
    assert journal.notes == NoteBlock(stamp, text);
    assert Wrap(text) == "  " + text;
    section := journal.FprintNote();
  }
}
