/** The keyword safety check of the `/api/analyze` handler: the request text
    is lower-cased and searched for four fixed words. */
module Server {
  import opened Wrappers
  import opened JsString

  /** The handler's JSON reply, `{safe, message}`. */
  datatype Verdict = Verdict(safe: bool, message: string)

  const SafeMessage := "This medication appears safe based on the scanned label."
  const WarningMessage := "WARNING: Label mentions 'expired' or 'recall'. Do not use."
  const CautionMessage := "Caution: This medication may cause drowsiness. Do not drive."

  /** The label mentions a danger word, in any letter case. */
  ghost predicate MentionsDanger(text: string)
  {
    Occurs(ToLowerCase(text), "expired") || Occurs(ToLowerCase(text), "recall")
  }

  /** The label mentions a drowsiness side effect, in any letter case. */
  ghost predicate MentionsDrowsiness(text: string)
  {
    Occurs(ToLowerCase(text), "drowsiness") || Occurs(ToLowerCase(text), "dizziness")
  }

  /** The classification of a label text. A danger word makes the label
      unsafe, whatever else it says; a drowsiness word alone keeps it safe
      but with a caution; anything else, the empty text included, is
      reported safe. */
  function Classify(text: string): (v: Verdict)
    ensures !v.safe <==> MentionsDanger(text)
    ensures MentionsDanger(text) ==> v.message == WarningMessage
    ensures !MentionsDanger(text) && MentionsDrowsiness(text) ==> v.message == CautionMessage
    ensures !MentionsDanger(text) && !MentionsDrowsiness(text) ==> v.message == SafeMessage
  {
    var lowerText := ToLowerCase(text);
    if Includes(lowerText, "expired") || Includes(lowerText, "recall") then
      Verdict(false, WarningMessage)
    else if Includes(lowerText, "drowsiness") || Includes(lowerText, "dizziness") then
      Verdict(true, CautionMessage)
    else
      Verdict(true, SafeMessage)
  }

  /** The handler on the request body's `text` field: `None` when the field
      is missing (or not a string), where `toLowerCase` throws and no verdict
      is sent. */
  function HandleAnalyze(text: Option<string>): (reply: Option<Verdict>)
    ensures reply.Some? <==> text.Some?
    ensures text.Some? ==> reply.value == Classify(text.value)
  {
    match text
    case None => None
    case Some(t) => Some(Classify(t))
  }

  /** The reply message is always one of the three fixed messages, and the
      warning goes with `safe == false` and only with it. */
  lemma MessageIsOneOfThree(text: string)
    ensures Classify(text).message in {SafeMessage, WarningMessage, CautionMessage}
    ensures !Classify(text).safe <==> Classify(text).message == WarningMessage
  {
  }

  /** A danger word wins over a drowsiness word in the same text. */
  lemma DangerTakesPrecedence(text: string)
    requires Occurs(ToLowerCase(text), "recall")
    requires Occurs(ToLowerCase(text), "drowsiness")
    ensures Classify(text) == Verdict(false, WarningMessage)
  {
  }

  /** Matching ignores letter case: a text and its lower-cased form get the
      same verdict. */
  lemma ClassifyIgnoresCase(text: string)
    ensures Classify(ToLowerCase(text)) == Classify(text)
  {
    ToLowerCaseIdempotent(text);
  }

  /** Matching is by substring, not by word: whatever is put around an unsafe
      text, the result is still unsafe. */
  lemma UnsafeInAnyContext(a: string, t: string, b: string)
    requires !Classify(t).safe
    ensures !Classify(a + t + b).safe
  {
    ToLowerCaseAppend(a + t, b);
    ToLowerCaseAppend(a, t);
    var l := ToLowerCase(a + t + b);
    assert l == ToLowerCase(a) + ToLowerCase(t) + ToLowerCase(b);
    if Occurs(ToLowerCase(t), "expired") {
      OccursInContext(ToLowerCase(a), ToLowerCase(t), ToLowerCase(b), "expired");
    } else {
      OccursInContext(ToLowerCase(a), ToLowerCase(t), ToLowerCase(b), "recall");
    }
  }

  /** Upper-case danger words are caught. */
  lemma UpperCaseRecallIsFlagged()
    ensures Classify("RECALL") == Verdict(false, WarningMessage)
    ensures Classify("Recall") == Verdict(false, WarningMessage)
  {
  }

  /** The empty label text is reported safe: absence of a keyword is read as
      safety. */
  lemma EmptyTextIsSafe()
    ensures Classify("") == Verdict(true, SafeMessage)
  {
  }
}
