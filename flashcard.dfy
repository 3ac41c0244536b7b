/**
 * A flashcard: an immutable value made of a due date and the texts of its two
 * faces. Rescheduling never changes a card; it builds a new one.
 */
module Flashcards {
  import opened Wrappers
  import opened DateText
  import JavaText

  /** Why a card could not be built: its due-date text is not a date. */
  datatype ParseError = DateTimeParseError(text: string)

  datatype Flashcard = Flashcard(dueDate: DateTime, frontText: string, backText: string)
  {
    function GetFrontText(): string { frontText }
    function GetBackText(): string { backText }
    function GetDueDate(): DateTime { dueDate }

    /**
     * `compareTo`: the comparison of the two due dates. Java's `LocalDateTime.compareTo`
     * promises only the sign of its result, so -1, 0 and 1 are used.
     */
    function CompareTo(other: Flashcard): (r: int)
      ensures r < 0 <==> dueDate < other.dueDate
      ensures r == 0 <==> dueDate == other.dueDate
      ensures r > 0 <==> dueDate > other.dueDate
    {
      if dueDate < other.dueDate then -1 else if dueDate == other.dueDate then 0 else 1
    }

    /** `toString`: date text, tab, front text, tab, back text. */
    function ToString(): string
    {
      Render(dueDate) + "\t" + frontText + "\t" + backText
    }
  }

  /** The constructor: parses the due-date text and keeps both texts as given. */
  function NewFlashcard(currentDueDate: string, front: string, back: string): (r: Result<Flashcard, ParseError>)
    ensures r.Err? <==> Parse(currentDueDate).None?
    ensures r.Err? ==> r.error == DateTimeParseError(currentDueDate)
  {
    match Parse(currentDueDate)
    case Some(t) => Ok(Flashcard(t, front, back))
    case None => Err(DateTimeParseError(currentDueDate))
  }

  /** The getters give back exactly what the constructor was given, and the parsed date. */
  lemma GettersReturnConstructorArguments(currentDueDate: string, front: string, back: string)
    requires Parse(currentDueDate).Some?
    ensures NewFlashcard(currentDueDate, front, back).Ok?
    ensures NewFlashcard(currentDueDate, front, back).value.GetFrontText() == front
    ensures NewFlashcard(currentDueDate, front, back).value.GetBackText() == back
    ensures NewFlashcard(currentDueDate, front, back).value.GetDueDate() == Parse(currentDueDate).value
  {
  }

  /** Building a card from the text of a date gives a card due exactly then. */
  lemma NewFlashcardFromRenderedDate(t: DateTime, front: string, back: string)
    ensures NewFlashcard(Render(t), front, back) == Ok(Flashcard(t, front, back))
  {
    ParseRender(t);
  }

  /** The order ignores the texts: only the due dates are compared. */
  lemma CompareIgnoresText(a: Flashcard, b: Flashcard, a': Flashcard, b': Flashcard)
    requires a.dueDate == a'.dueDate && b.dueDate == b'.dueDate
    ensures a.CompareTo(b) == a'.CompareTo(b')
  {
  }

  /**
   * `compareTo` is a total preorder: reflexive, antisymmetric in sign, transitive,
   * and two different cards due at the same moment compare equal.
   */
  lemma CompareIsTotalPreorder(a: Flashcard, b: Flashcard, c: Flashcard)
    ensures a.CompareTo(a) == 0
    ensures a.CompareTo(b) < 0 <==> b.CompareTo(a) > 0
    ensures a.CompareTo(b) <= 0 || b.CompareTo(a) <= 0
    ensures a.CompareTo(b) <= 0 && b.CompareTo(c) <= 0 ==> a.CompareTo(c) <= 0
    ensures a.dueDate == b.dueDate ==> a.CompareTo(b) == 0
  {
  }

  /**
   * Text a card face can hold and still be written to and read back from a
   * flashcard file: trimmed, with no tab and none of the characters at which
   * `Scanner.nextLine` ends a line (line feed, carriage return, U+0085, U+2028
   * and U+2029).
   */
  predicate SavableText(s: string)
  {
    && JavaText.Trimmed(s)
    && '\t' !in s && '\n' !in s && '\r' !in s
    && '\U{0085}' !in s && '\U{2028}' !in s && '\U{2029}' !in s
  }

  /**
   * `toString` splits on tab into exactly the date text, the front and the back,
   * whenever neither face holds a tab.
   */
  lemma {:induction false} ToStringFields(card: Flashcard)
    requires '\t' !in card.frontText && '\t' !in card.backText
    ensures JavaText.Split(card.ToString(), '\t') == [Render(card.dueDate), card.frontText, card.backText]
  {
    var date := Render(card.dueDate);
    RenderIsPlain(card.dueDate);
    assert '\t' !in date by {
      forall i | 0 <= i < |date| ensures date[i] != '\t' { }
    }
    var fields := [date, card.frontText, card.backText];
    assert JavaText.Join(fields[2..], '\t') == card.backText;
    assert fields[1..][1..] == fields[2..];
    assert JavaText.Join(fields, '\t') == card.ToString();
    JavaText.SplitJoin(fields, '\t');
  }
}
