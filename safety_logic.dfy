/** `analyzeSafety`: ask a language model about a list of drugs and read its
    answer as JSON. The model call and `JSON.parse` are parameters; what is
    modelled is the default language, the slice from the first `{` to the
    last `}`, and the conversion of every failure into one fixed error. */
module SafetyLogic {
  import opened Wrappers
  import opened JsString

  const DefaultLanguage := "English"
  const FailureMessage := "Safety check failed. Please consult a pharmacist."

  /** What is sent to the model: the drugs and the language of the answer. */
  datatype SafetyRequest = SafetyRequest(drugs: seq<string>, language: string)

  /** The function's result: the parsed reply, or the `{error}` object. */
  datatype Outcome<V> = Parsed(value: V) | Failed(error: string)

  /** The request built from the arguments; `userLanguage` defaults to
      English when it is not supplied. */
  function MakeRequest(drugList: seq<string>, userLanguage: Option<string>): (req: SafetyRequest)
    ensures req.drugs == drugList
    ensures userLanguage.None? ==> req.language == DefaultLanguage
    ensures userLanguage.Some? ==> req.language == userLanguage.value
  {
    SafetyRequest(drugList, userLanguage.GetOr(DefaultLanguage))
  }

  /** The candidate JSON text: from the first `{` of the reply to one past its
      last `}`, with JavaScript's `slice` rules when either is missing. */
  function JsonCandidate(response: string): (c: string)
    ensures Occurs(response, c)
  {
    var jsonStart := IndexOf(response, "{");
    var jsonEnd := LastIndexOf(response, "}") + 1;
    Slice(response, jsonStart, jsonEnd)
  }

  /** A reply with a `{` before its last `}`: the candidate runs from the
      first `{` through the last `}`; what comes before and after is
      dropped. */
  lemma CandidateBetweenBraces(response: string)
    requires IndexOf(response, "{") != -1
    requires IndexOf(response, "{") < LastIndexOf(response, "}")
    ensures var i, j, c := IndexOf(response, "{"), LastIndexOf(response, "}"), JsonCandidate(response);
      && c == response[i..j + 1]
      && |c| >= 2 && c[0] == '{' && c[|c| - 1] == '}'
      && response == response[..i] + c + response[j + 1..]
      && '{' !in response[..i]
      && '}' !in response[j + 1..]
  {
    IndexOfChar(response, '{');
    LastIndexOfChar(response, '}');
    var i, j := IndexOf(response, "{"), LastIndexOf(response, "}");
    SliceWithinBounds(response, i, j + 1);
    assert response == response[..i] + response[i..j + 1] + response[j + 1..];
  }

  /** A reply without `{`: the start index is -1, which `slice` reads as the
      last character, so the candidate is empty or the single `}`. */
  lemma CandidateWithoutOpenBrace(response: string)
    requires '{' !in response
    ensures JsonCandidate(response) in {"", "}"}
  {
    IndexOfChar(response, '{');
    LastIndexOfChar(response, '}');
    var j := LastIndexOf(response, "}");
    if |response| > 0 && j + 1 == |response| {
      SliceWithinBounds(response, |response| - 1, |response|);
      assert response[|response| - 1..] == [response[|response| - 1]];
    }
  }

  /** A reply whose last `}` (if any) comes before its first `{` gives the
      empty candidate. */
  lemma CandidateEmptyWhenClosedBeforeOpen(response: string)
    requires IndexOf(response, "{") != -1
    requires LastIndexOf(response, "}") < IndexOf(response, "{")
    ensures JsonCandidate(response) == ""
  {
  }

  /** Extracting from an extracted candidate changes nothing. */
  lemma CandidateIdempotent(response: string)
    ensures JsonCandidate(JsonCandidate(response)) == JsonCandidate(response)
  {
    var c := JsonCandidate(response);
    IndexOfChar(response, '{');
    var i, j := IndexOf(response, "{"), LastIndexOf(response, "}");
    if i != -1 && i < j {
      CandidateBetweenBraces(response);
      IndexOfChar(c, '{');
      LastIndexOfChar(c, '}');
      OccursAtChar(c, '}', |c| - 1);
      assert LastIndexOf(c, "}") == |c| - 1;
      SliceWithinBounds(c, 0, |c|);
    } else if i == -1 {
      CandidateWithoutOpenBrace(response);
      if c == "}" {
        assert IndexOf(c, "{") == -1 by { IndexOfChar(c, '{'); }
        OccursAtChar(c, '}', 0);
      }
    } else {
      assert c == "";
    }
  }

  /** What the model of `JSON.parse` must satisfy: the empty string and a lone
      `}` are not JSON, so parsing them throws (`None`). */
  ghost predicate RejectsBraceless<V>(parse: string -> Option<V>)
  {
    parse("").None? && parse("}").None?
  }

  /** `analyzeSafety(drugList, userLanguage)`. `ask` stands for the model
      call, `None` when it throws, otherwise the text of the reply's first
      content block; `parse` stands for `JSON.parse`, `None` when it throws.
      Every failure becomes the fixed error; nothing escapes. */
  function AnalyzeSafety<V>(drugList: seq<string>, userLanguage: Option<string>,
                            ask: SafetyRequest -> Option<string>,
                            parse: string -> Option<V>): (out: Outcome<V>)
    ensures out.Failed? ==> out.error == FailureMessage
    ensures var reply := ask(MakeRequest(drugList, userLanguage));
      out.Parsed? <==> reply.Some? && parse(JsonCandidate(reply.value)).Some?
    ensures var reply := ask(MakeRequest(drugList, userLanguage));
      out.Parsed? ==> parse(JsonCandidate(reply.value)) == Some(out.value)
  {
    match ask(MakeRequest(drugList, userLanguage))
    case None => Failed(FailureMessage)
    case Some(textResponse) =>
      match parse(JsonCandidate(textResponse))
      case None => Failed(FailureMessage)
      case Some(v) => Parsed(v)
  }

  /** A reply with no `{`, or with no `}` after its first `{`, never yields
      a parsed report: the result is the fixed error. */
  lemma NoObjectMeansFailure<V>(drugList: seq<string>, userLanguage: Option<string>,
                                ask: SafetyRequest -> Option<string>,
                                parse: string -> Option<V>)
    requires RejectsBraceless(parse)
    requires ask(MakeRequest(drugList, userLanguage)).Some?
    requires var t := ask(MakeRequest(drugList, userLanguage)).value;
      '{' !in t || LastIndexOf(t, "}") < IndexOf(t, "{")
    ensures AnalyzeSafety(drugList, userLanguage, ask, parse) == Failed(FailureMessage)
  {
    var t := ask(MakeRequest(drugList, userLanguage)).value;
    IndexOfChar(t, '{');
    if '{' !in t {
      CandidateWithoutOpenBrace(t);
    } else {
      CandidateEmptyWhenClosedBeforeOpen(t);
    }
  }
}
