/** The `useSpeech` hook: it reads a text aloud through the browser's speech
    synthesizer, in the language chosen by the user, and keeps an
    `isSpeaking` flag. The synthesizer is modelled as a queue of pending
    utterances. */
module Speech {
  import opened Wrappers

  /** The language names the hook knows and their BCP 47 tags (RFC 5646). */
  const LangMap: map<string, string> := map[
    "English" := "en-US",
    "Spanish" := "es-ES",
    "French" := "fr-FR",
    "Arabic" := "ar-SA",
    "Mandarin" := "zh-CN"
  ]

  /** The tag used for a name the map does not know. */
  const FallbackTag := "en-US"

  /** The `lang` argument of `speak` when none is given. */
  const DefaultSpeakLang := "en-US"

  // ---------------------------------------------------------------------
  // The language lookup as written: `langMap[lang] || 'en-US'`

  /** Property names that every object literal inherits from
      `Object.prototype`. */
  const InheritedNames: set<string> := {
    "constructor", "hasOwnProperty", "isPrototypeOf", "propertyIsEnumerable",
    "toLocaleString", "toString", "valueOf", "__defineGetter__",
    "__defineSetter__", "__lookupGetter__", "__lookupSetter__", "__proto__"
  }

  /** What the property access `langMap[lang]` finds. */
  datatype Property = Own(tag: string) | Inherited(name: string) | Undefined

  /** Property access on the object literal, prototype chain included. */
  function LangMapGet(lang: string): (p: Property)
    ensures p.Own? <==> lang in LangMap
    ensures p.Own? ==> p.tag == LangMap[lang]
    ensures p.Inherited? <==> lang !in LangMap && lang in InheritedNames
  {
    if lang in LangMap then Own(LangMap[lang])
    else if lang in InheritedNames then Inherited(lang)
    else Undefined
  }

  /** The string the `lang` attribute ends up holding when it is assigned an
      inherited member: the `__proto__` getter yields `Object.prototype`,
      the others are native functions. */
  function InheritedAsString(name: string): (s: string)
    ensures |s| > 5
  {
    if name == "__proto__" then "[object Object]"
    else if name == "constructor" then "function Object() { [native code] }"
    else "function " + name + "() { [native code] }"
  }

  /** `langMap[lang] || 'en-US'` as written. Every tag in the map is a
      non-empty string, so `||` falls back only on `undefined`; an inherited
      member is a truthy object and gets through. */
  function LangAttributeAsWritten(lang: string): (attr: string)
    ensures lang in LangMap ==> attr == LangMap[lang]
    ensures lang !in LangMap && lang !in InheritedNames ==> attr == FallbackTag
    ensures lang !in LangMap && lang in InheritedNames ==> attr !in LangMap.Values
  {
    match LangMapGet(lang)
    case Own(tag) => tag
    case Inherited(name) => InheritedAsString(name)
    case Undefined => FallbackTag
  }

  /** The language name "toString" escapes the fallback: the utterance's
      language is not a BCP 47 tag at all. */
  lemma InheritedNameEscapesFallback()
    ensures LangAttributeAsWritten("toString") !in LangMap.Values
    ensures LangAttributeAsWritten("toString") != FallbackTag
  {
  }

  // ---------------------------------------------------------------------
  // The language lookup as intended: own keys only

  /** The tag for a language name: the mapped tag for the five known names,
      `en-US` for anything else. */
  function LangTag(lang: string): (tag: string)
    ensures lang in LangMap ==> tag == LangMap[lang]
    ensures lang !in LangMap ==> tag == FallbackTag
  {
    if lang in LangMap then LangMap[lang] else FallbackTag
  }

  /** Whatever the name, the tag is one of the five mapped tags. */
  lemma LangTagIsMappedTag(lang: string)
    ensures LangTag(lang) in LangMap.Values
  {
    assert LangMap["English"] == FallbackTag;
  }

  /** The five names and their tags; the default argument `en-US` is not a
      key and falls back to `en-US`. */
  lemma KnownLangTags()
    ensures LangTag("English") == "en-US"
    ensures LangTag("Spanish") == "es-ES"
    ensures LangTag("French") == "fr-FR"
    ensures LangTag("Arabic") == "ar-SA"
    ensures LangTag("Mandarin") == "zh-CN"
    ensures LangTag(DefaultSpeakLang) == "en-US"
  {
  }

  /** For every name that is not inherited, the corrected lookup agrees with
      the one written. */
  lemma LangTagAgreesOutsideInherited(lang: string)
    requires lang !in InheritedNames || lang in LangMap
    ensures LangTag(lang) == LangAttributeAsWritten(lang)
  {
  }

  // ---------------------------------------------------------------------
  // The synthesizer and the hook

  /** A `SpeechSynthesisUtterance`: its text, and its language once set. */
  class Utterance {
    const text: string
    var lang: string

    constructor (text: string)
      ensures this.text == text && lang == ""
    {
      this.text := text;
      lang := "";
    }
  }

  /** `window.speechSynthesis`, seen as its queue of pending utterances. */
  class Synth {
    var pending: seq<Utterance>

    constructor ()
      ensures pending == []
    {
      pending := [];
    }

    /** `cancel()`: every pending utterance is dropped. */
    method Cancel()
      modifies this
      ensures pending == []
    {
      pending := [];
    }

    /** `speak(u)`: `u` joins the end of the queue. */
    method Speak(u: Utterance)
      modifies this
      ensures pending == old(pending) + [u]
    {
      pending := pending + [u];
    }

    /** The engine finishes the utterance at the head of the queue. */
    method Finish() returns (done: Option<Utterance>)
      modifies this
      ensures old(pending) == [] ==> done == None && pending == []
      ensures old(pending) != [] ==> done == Some(old(pending)[0]) && pending == old(pending)[1..]
    {
      if pending == [] {
        done := None;
      } else {
        done := Some(pending[0]);
        pending := pending[1..];
      }
    }
  }

  /** The state of one `useSpeech` hook: the synthesizer (absent in a browser
      without speech support), the `isSpeaking` flag and `utteranceRef`. */
  class SpeechHook {
    const synth: Synth?
    var isSpeaking: bool
    var utteranceRef: Utterance?

    /** Once the hook has spoken, its utterance carries a mapped tag and is
        the only utterance the synthesizer may still have pending. */
    ghost predicate Valid()
      reads this, synth, utteranceRef
    {
      utteranceRef != null ==>
        && utteranceRef.lang in LangMap.Values
        && synth != null
        && (synth.pending == [] || synth.pending == [utteranceRef])
    }

    /** `useState(false)` and `useRef(null)`. */
    constructor (synth: Synth?)
      ensures this.synth == synth
      ensures !isSpeaking && utteranceRef == null
      ensures Valid()
    {
      this.synth := synth;
      isSpeaking := false;
      utteranceRef := null;
    }

    /** `speak(text, lang)`. Without a synthesizer or with an empty text it
        does nothing. Otherwise it cancels whatever is pending and queues one
        new utterance of `text` in the language's tag, held by
        `utteranceRef`; `isSpeaking` waits for the start event. The
        language comes from the corrected lookup `LangTag`, not from
        `LangAttributeAsWritten`. */
    method Speak(text: string, lang: Option<string>)
      requires Valid()
      modifies this, synth
      ensures Valid()
      ensures synth == null || text == "" ==>
        utteranceRef == old(utteranceRef) && (synth != null ==> synth.pending == old(synth.pending))
      ensures synth != null && text != "" ==>
        && utteranceRef != null && fresh(utteranceRef)
        && synth.pending == [utteranceRef]
        && utteranceRef.text == text
        && utteranceRef.lang == LangTag(lang.GetOr(DefaultSpeakLang))
      ensures isSpeaking == old(isSpeaking)
    {
      if synth == null || text == "" {
        return;
      }
      synth.Cancel();
      var utterance := new Utterance(text);
      utteranceRef := utterance;
      utterance.lang := LangTag(lang.GetOr(DefaultSpeakLang));
      LangTagIsMappedTag(lang.GetOr(DefaultSpeakLang));
      synth.Speak(utterance);
    }

    /** `stop()`: with a synthesizer, nothing stays pending and the flag is
        cleared; without one, nothing changes. */
    method Stop()
      requires Valid()
      modifies this, synth
      ensures Valid()
      ensures utteranceRef == old(utteranceRef)
      ensures synth != null ==> synth.pending == [] && !isSpeaking
      ensures synth == null ==> isSpeaking == old(isSpeaking)
    {
      if synth != null {
        synth.Cancel();
        isSpeaking := false;
      }
    }

    /** The clean-up run when the component unmounts: pending speech is
        cancelled. */
    method Unmount()
      requires Valid()
      modifies synth
      ensures Valid()
      ensures synth != null ==> synth.pending == []
    {
      if synth != null {
        synth.Cancel();
      }
    }

    /** The utterance's `onstart` handler. */
    method OnStart()
      requires Valid()
      modifies this`isSpeaking
      ensures Valid()
      ensures isSpeaking
    {
      isSpeaking := true;
    }

    /** The utterance's `onend` handler. */
    method OnEnd()
      requires Valid()
      modifies this`isSpeaking
      ensures Valid()
      ensures !isSpeaking
    {
      isSpeaking := false;
    }

    /** The utterance's `onerror` handler. */
    method OnError()
      requires Valid()
      modifies this`isSpeaking
      ensures Valid()
      ensures !isSpeaking
    {
      isSpeaking := false;
    }

    /** The synthesizer finishes the pending utterance and fires its end
        event. */
    method EngineFinishes()
      requires Valid()
      modifies this`isSpeaking, synth
      ensures Valid()
      ensures synth != null && old(synth.pending) != [] ==> synth.pending == old(synth.pending)[1..] && !isSpeaking
      ensures synth == null || old(synth.pending) == [] ==>
        isSpeaking == old(isSpeaking) && (synth != null ==> synth.pending == old(synth.pending))
    {
      if synth != null && synth.pending != [] {
        var _ := synth.Finish();
        OnEnd();
      }
    }
  }

  /** A caller's view: speaking twice leaves only the second text pending;
      the start and end events drive the flag; stop clears the queue. */
  method SpeakTwiceThenStop(synth: Synth)
    modifies synth
  {
    var hook := new SpeechHook(synth);
    hook.Speak("Take with food.", Some("Spanish"));
    hook.Speak("Attention.", Some("French"));
    assert |synth.pending| == 1 && synth.pending[0].text == "Attention.";
    assert synth.pending[0].lang == "fr-FR";
    hook.OnStart();
    assert hook.isSpeaking;
    hook.EngineFinishes();
    assert synth.pending == [] && !hook.isSpeaking;
    hook.OnStart();
    hook.EngineFinishes();
    assert synth.pending == [] && hook.isSpeaking;
    hook.OnError();
    hook.Speak("", None);
    assert synth.pending == [];
    hook.Speak("Again.", None);
    assert synth.pending[0].lang == "en-US";
    hook.Stop();
    assert synth.pending == [] && !hook.isSpeaking;
  }
}
