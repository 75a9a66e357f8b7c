/** The contact form's submit handler: the five field values are trimmed,
    the four required ones must be non-empty, and the "security question"
    must be answered with the literal "15". The outcome is a popup (its text
    and kind) and whether the form is reset. No message is ever sent. */
module ContactForm {
  import opened JsString

  /** The raw `.value` of the five inputs at the moment of submission. */
  datatype FormValues = FormValues(
    name: string, email: string, subject: string, message: string, question: string)

  datatype PopupKind = Success | Error

  /** The popup `showPopup(message, type)` creates: its text and its kind. */
  datatype Popup = Popup(text: string, kind: PopupKind)

  /** What the handler does: the popup it shows and whether it resets the form. */
  datatype Response = Response(popup: Popup, reset: bool)

  /** The only answer the security question accepts. */
  const CorrectAnswer: string := "15"

  const FillInPopup: Popup :=
    Popup("\U{26A0}\U{FE0F} Please fill in all fields.", Error)

  const WrongAnswerPopup: Popup :=
    Popup("\U{274C} Incorrect answer to the security question.", Error)

  const SentPrefix: string := "\U{2705} Message sent successfully! Thank you, "

  /** The success popup thanks the sender by name. */
  function SuccessPopup(name: string): (p: Popup)
    ensures p.kind == Success
    ensures |p.text| == |SentPrefix| + |name| + 1
    ensures p.text[..|SentPrefix|] == SentPrefix
    ensures p.text[|SentPrefix|..|SentPrefix| + |name|] == name
    ensures p.text[|p.text| - 1] == '.'
  {
    Popup(SentPrefix + name + ".", Success)
  }

  /** Different names give different success popups: the popup tells
      the sender which name was read. */
  lemma SuccessPopupNamesSender(a: string, b: string)
    requires SuccessPopup(a) == SuccessPopup(b)
    ensures a == b
  {
    assert |a| == |b|;
    assert a == SuccessPopup(a).text[|SentPrefix|..|SentPrefix| + |a|];
  }

  /** One of the four required fields is empty once trimmed. */
  predicate MissingRequired(f: FormValues)
    ensures MissingRequired(f) <==>
      AllWhiteSpace(f.name) || AllWhiteSpace(f.email) || AllWhiteSpace(f.subject) || AllWhiteSpace(f.message)
  {
    TrimEmptyIff(f.name);
    TrimEmptyIff(f.email);
    TrimEmptyIff(f.subject);
    TrimEmptyIff(f.message);
    Trim(f.name) == [] || Trim(f.email) == [] || Trim(f.subject) == [] || Trim(f.message) == []
  }

  /** The submit handler: the check for a missing field comes first, then
      the trimmed answer is compared with "15"; only success resets. */
  function Submit(f: FormValues): (r: Response)
    ensures r.reset <==> r.popup.kind == Success
  {
    var name := Trim(f.name);
    var question := Trim(f.question);
    if MissingRequired(f) then
      Response(FillInPopup, false)
    else if question != CorrectAnswer then
      Response(WrongAnswerPopup, false)
    else
      Response(SuccessPopup(name), true)
  }

  /** A required field that holds nothing but white space gives the
      "fill in all fields" error whatever the question field holds, and the
      form is not reset. */
  lemma MissingFieldWins(f: FormValues)
    requires AllWhiteSpace(f.name) || AllWhiteSpace(f.email)
          || AllWhiteSpace(f.subject) || AllWhiteSpace(f.message)
    ensures Submit(f) == Response(FillInPopup, false)
    ensures forall q :: Submit(f.(question := q)) == Submit(f)
  {
    TrimEmptyIff(f.name);
    TrimEmptyIff(f.email);
    TrimEmptyIff(f.subject);
    TrimEmptyIff(f.message);
  }

  /** Conversely, the "fill in all fields" error appears only when a required
      field is all white space. */
  lemma FillInOnlyWhenMissing(f: FormValues)
    requires Submit(f).popup == FillInPopup
    ensures AllWhiteSpace(f.name) || AllWhiteSpace(f.email)
         || AllWhiteSpace(f.subject) || AllWhiteSpace(f.message)
  {
    TrimEmptyIff(f.name);
    TrimEmptyIff(f.email);
    TrimEmptyIff(f.subject);
    TrimEmptyIff(f.message);
  }

  /** With every required field filled in, the outcome is success exactly
      when the trimmed answer is "15"; success thanks the trimmed name and
      resets, failure is the incorrect-answer error without reset. */
  lemma AnswerDecides(f: FormValues)
    requires !MissingRequired(f)
    ensures Submit(f).reset <==> Trim(f.question) == CorrectAnswer
    ensures Submit(f).reset ==> Submit(f).popup == SuccessPopup(Trim(f.name))
    ensures !Submit(f).reset ==> Submit(f).popup == WrongAnswerPopup
  {
  }

  /** The answers accepted are exactly "15" with white space around it. */
  lemma AcceptedAnswers(q: string)
    ensures Trim(q) == CorrectAnswer <==>
      exists a, b :: AllWhiteSpace(a) && AllWhiteSpace(b) && q == a + CorrectAnswer + b
  {
    if Trim(q) == CorrectAnswer {
      var a, b := TrimSplit(q);
    }
    if exists a, b :: AllWhiteSpace(a) && AllWhiteSpace(b) && q == a + CorrectAnswer + b {
      var a, b :| AllWhiteSpace(a) && AllWhiteSpace(b) && q == a + CorrectAnswer + b;
      TrimUnique(a, CorrectAnswer, b);
    }
  }

  /** Padding around the answer is trimmed away. */
  lemma PaddedAnswerAccepted()
    ensures Trim(" 15 ") == CorrectAnswer
  {
    assert " 15 " == " " + CorrectAnswer + " ";
    TrimUnique(" ", CorrectAnswer, " ");
  }

  /** A leading zero or a decimal point is kept, so neither answer is "15". */
  lemma NumericVariantsRejected()
    ensures Trim("015") == "015"
    ensures Trim("15.0") == "15.0"
  {
    TrimOfTrimmed("015");
    TrimOfTrimmed("15.0");
  }

  /** Fields with nothing to trim and an answer that trims to "15": the
      sender is thanked by the name as typed and the form is reset. */
  lemma CleanSubmission(f: FormValues)
    requires f.name != [] && f.email != [] && f.subject != [] && f.message != []
    requires Trimmed(f.name) && Trimmed(f.email) && Trimmed(f.subject) && Trimmed(f.message)
    ensures Trim(f.question) == CorrectAnswer ==> Submit(f) == Response(SuccessPopup(f.name), true)
    ensures Trim(f.question) != CorrectAnswer ==> Submit(f) == Response(WrongAnswerPopup, false)
  {
    TrimOfTrimmed(f.name);
    TrimOfTrimmed(f.email);
    TrimOfTrimmed(f.subject);
    TrimOfTrimmed(f.message);
  }

  /** Valid fields and the right answer: thanked by name, form reset. */
  lemma AlexSubmitsCorrectAnswer()
    ensures Submit(FormValues("Alex", "a@b.com", "Hi", "Test", "15"))
         == Response(SuccessPopup("Alex"), true)
  {
    TrimOfTrimmed("15");
    CleanSubmission(FormValues("Alex", "a@b.com", "Hi", "Test", "15"));
  }

  /** Valid fields and the answer "14": the incorrect-answer error, no reset. */
  lemma AlexSubmitsWrongAnswer()
    ensures Submit(FormValues("Alex", "a@b.com", "Hi", "Test", "14"))
         == Response(WrongAnswerPopup, false)
  {
    TrimOfTrimmed("14");
    CleanSubmission(FormValues("Alex", "a@b.com", "Hi", "Test", "14"));
  }

  /** An empty message: the "fill in all fields" error, whatever the answer. */
  lemma EmptyMessageSubmission(q: string)
    ensures Submit(FormValues("Alex", "a@b.com", "Hi", "", q))
         == Response(FillInPopup, false)
  {
  }
}
