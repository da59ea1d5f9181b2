/**
 * How the value returned by the translation backend is turned into the translated text.
 * The backend's reply is untyped; here it is a closed set of shapes, each with the string
 * that `str(...)` gives for it. The fallback translator is called at two places in the
 * source; what each call gives (its text, or the exception it raised) is a parameter.
 */
module Interpretation {
  import opened Wrappers
  import opened PyStr
  import opened Truncation

  /** The shapes a reply of `translator.translate(...)` can take. */
  datatype Response =
    | Coroutine(repr: string)                                  // an un-awaited coroutine
    | Obj(repr: string, hasDict: bool, text: Option<string>)   // an object, maybe with `__dict__`, maybe with `.text`
    | Str(value: string)                                       // a plain string; `str` of it is itself
    | Dict(repr: string, textEntry: Option<string>)            // a dict, maybe with a "text" key
    | Other(repr: string)                                      // anything else: no `__dict__`, no `.text`

  /** `str(translation)`. */
  function Repr(response: Response): string {
    match response
    case Str(value) => value
    case Coroutine(repr) => repr
    case Obj(repr, _, _) => repr
    case Dict(repr, _) => repr
    case Other(repr) => repr
  }

  /** `translation.text`, when `hasattr(translation, 'text')`. */
  function TextAttr(response: Response): Option<string> {
    if response.Obj? then response.text else None
  }

  /** `hasattr(translation, '__dict__')`. */
  predicate HasDict(response: Response) {
    response.Obj? && response.hasDict
  }

  /** The `coroutine_detected` test: the reply is treated as unresolved and the fallback is used. */
  predicate LooksUnresolved(response: Response) {
    var s := Repr(response);
    response.Coroutine?
    || StartsWith(s, "<coroutine")
    || Contains(s, "object at 0x")
    || StartsWith(s, "<googletrans.models.Translated")
    || (HasDict(response) && TextAttr(response).None?)
  }

  /** `s[1:-1]` when `s` both starts and ends with a single quote, else `s`. */
  function Unquote(s: string): (r: string)
    ensures exists a :: SliceAt(s, r, a)
    ensures StartsWith(s, "'") && EndsWith(s, "'") ==> |r| == if |s| >= 2 then |s| - 2 else 0
  {
    if StartsWith(s, "'") && EndsWith(s, "'") then
      if |s| >= 2 then
        assert SliceAt(s, s[1..|s| - 1], 1);
        s[1..|s| - 1]
      else
        assert SliceAt(s, "", 0);
        ""
    else
      assert SliceAt(s, s, 0);
      s
  }

  lemma UnquoteRemovesOnePair(v: string)
    ensures Unquote("'" + v + "'") == v
  {
    var q := "'" + v + "'";
    assert q[1..|q| - 1] == v;
  }

  /**
   * The position `k` of the first "text=" (not at index 0) and the first comma `e` at or after
   * `k + 5`, which must lie strictly after `k + 5`: the conditions `text_start > 5` and
   * `text_end > text_start` of the source.
   */
  ghost predicate ExtractableAt(s: string, k: int, e: int) {
    0 < k && FirstAt(s, "text=", 0, k) && k + 5 < e && FirstAt(s, ",", k + 5, e)
  }

  /** Stripping and unquoting only cut the text, so a character absent before is absent after. */
  lemma CleanedKeepsAbsence(segment: string, c: char)
    requires c !in segment
    ensures c !in Unquote(Strip(segment))
  {
    var stripped := Strip(segment);
    var a :| SliceBetweenSpaces(segment, stripped, a);
    SliceKeepsAbsence(segment, stripped, a, c);
    var r := Unquote(stripped);
    var b :| SliceAt(stripped, r, b);
    SliceKeepsAbsence(stripped, r, b, c);
  }

  lemma NoCommaBefore(s: string, start: nat, end: int)
    requires FirstAt(s, ",", start, end)
    ensures ',' !in s[start..end]
  {
    forall i | start <= i < end ensures s[i] != ',' {
      assert !OccursAt(s, ",", i);
      assert s[i..i + 1] == [s[i]];
    }
  }

  /** The text between "text=" and the next comma, stripped and unquoted; `None` sends to the fallback. */
  function ExtractTextField(s: string): (r: Option<string>)
    ensures r.Some? ==> ',' !in r.value && |r.value| < |s|
  {
    var start := Find(s, "text=", 0) + 5;
    if start > 5 then
      var end := Find(s, ",", start);
      if end > start then
        NoCommaBefore(s, start, end);
        CleanedKeepsAbsence(s[start..end], ',');
        Some(Unquote(Strip(s[start..end])))
      else None
    else None
  }

  /** The positions the extraction uses are the ones `find` reports. */
  lemma ExtractableIsFound(s: string, k: int, e: int)
    requires ExtractableAt(s, k, e)
    ensures k == Find(s, "text=", 0) && e == Find(s, ",", k + 5)
  {
    FindIsTheFirst(s, "text=", 0, k);
    FindIsTheFirst(s, ",", k + 5, e);
  }

  /**
   * The extraction succeeds exactly when "text=" first occurs at a positive index and the first comma
   * after it lies strictly after the marker; the result is that segment, stripped and unquoted.
   */
  lemma ExtractTextFieldMeaning(s: string)
    ensures ExtractTextField(s).Some? <==> exists k, e :: ExtractableAt(s, k, e)
    ensures forall k, e :: ExtractableAt(s, k, e) ==> ExtractTextField(s) == Some(Unquote(Strip(s[k + 5..e])))
  {
    forall k, e | ExtractableAt(s, k, e)
      ensures ExtractTextField(s) == Some(Unquote(Strip(s[k + 5..e])))
    {
      ExtractableIsFound(s, k, e);
    }
    var k := Find(s, "text=", 0);
    if k > 0 {
      var e := Find(s, ",", k + 5);
      if e > k + 5 {
        assert ExtractableAt(s, k, e);
      }
    }
  }

  /**
   * When no "text=" starts inside `prefix` (it may reach into the "text" that follows it), the
   * "text=" written after `prefix` is the first one.
   */
  lemma {:induction false} MarkerIsFirst(prefix: string, tail: string)
    requires !Contains(prefix + "text", "text=")
    ensures FirstAt(prefix + "text=" + tail, "text=", 0, |prefix|)
  {
    var s := prefix + "text=" + tail;
    var h := prefix + "text";
    var k := |prefix|;
    assert s[k..k + 5] == "text=";
    ContainsMeansOccurs(h, "text=");
    forall i | 0 <= i < k ensures !OccursAt(s, "text=", i) {
      assert s[i..i + 5] == h[i..i + 5] by {
        forall j | i <= j < i + 5 ensures s[j] == h[j] {
          if j < k {
            assert s[j] == prefix[j] == h[j];
          } else {
            assert s[j] == "text="[j - k] && h[j] == "text"[j - k];
          }
        }
      }
      assert !OccursAt(h, "text=", i);
    }
  }

  /** With no comma in `value`, the comma written after it is the first one from its start. */
  lemma {:induction false} CommaIsFirst(head: string, value: string, rest: string)
    requires ',' !in value
    ensures FirstAt(head + value + "," + rest, ",", |head|, |head| + |value|)
  {
    var s := head + value + "," + rest;
    var e := |head| + |value|;
    assert s[e..e + 1] == [','];
    forall i | |head| <= i < e ensures !OccursAt(s, ",", i) {
      assert s[i] == value[i - |head|];
      assert s[i..i + 1] == [s[i]];
    }
  }

  /** Reading back a field written as `<prefix>text=<value>,<rest>`. */
  lemma ExtractRoundTrip(prefix: string, value: string, rest: string)
    requires prefix != [] && !Contains(prefix + "text", "text=")
    requires value != [] && ',' !in value && !IsSpace(value[0]) && !IsSpace(value[|value| - 1])
    ensures ExtractTextField(prefix + "text=" + value + "," + rest) == Some(Unquote(value))
  {
    var s := prefix + "text=" + value + "," + rest;
    var k := |prefix|;
    MarkerIsFirst(prefix, value + "," + rest);
    assert s == prefix + "text=" + (value + "," + rest);
    CommaIsFirst(prefix + "text=", value, rest);
    assert ExtractableAt(s, k, k + 5 + |value|);
    assert s[k + 5..k + 5 + |value|] == value;
    ExtractTextFieldMeaning(s);
    StripKeepsUnpadded(value);
  }

  lemma GoogletransPrefix()
    ensures !Contains("Translated(src=en, dest=hi, " + "text", "text=")
  {
    var h := "Translated(src=en, dest=hi, " + "text";
    forall i | 0 <= i ensures !OccursAt(h, "text=", i) {
      if i + 5 <= |h| {
        assert h[i..i + 5][4] == h[i + 4] && h[i..i + 5][0] == h[i];
      }
    }
    ContainsMeansOccurs(h, "text=");
  }

  /** The repr googletrans gives a translation from English to Hindi reads back as its text. */
  lemma GoogletransReprRoundTrip(value: string, rest: string)
    requires value != [] && ',' !in value && !IsSpace(value[0]) && !IsSpace(value[|value| - 1])
    ensures ExtractTextField("Translated(src=en, dest=hi, " + "text=" + value + "," + rest) == Some(Unquote(value))
  {
    GoogletransPrefix();
    ExtractRoundTrip("Translated(src=en, dest=hi, ", value, rest);
  }

  /** Where the interpretation sends a reply that raised nothing. */
  datatype Route =
    | UseFallback            // the fallback; if it raises, the exception handler takes over
    | UseFallbackOrApology   // the fallback; if it raises, the fixed Hindi apology
    | UseText(text: string)  // this text, with no fallback

  const Apology: string := "वह नहीं चला"

  /** None of the earlier tests applies, so the source falls back to searching `str(translation)`. */
  predicate LastResort(response: Response) {
    !LooksUnresolved(response) && TextAttr(response).None? && !response.Str?
    && !(response.Dict? && response.textEntry.Some?)
  }

  /** The priority-ordered classification of a reply. */
  function Classify(response: Response): (r: Route)
    ensures LooksUnresolved(response) ==> r == UseFallback
    ensures !LooksUnresolved(response) && TextAttr(response).Some? ==> r == UseText(TextAttr(response).value)
    ensures !LooksUnresolved(response) && response.Str? ==> r == UseText(response.value)
    ensures !LooksUnresolved(response) && response.Dict? && response.textEntry.Some?
            ==> r == UseText(response.textEntry.value)
    ensures r == UseFallbackOrApology ==>
              Contains(Repr(response), "coroutine") || Contains(Repr(response), "object")
    ensures r.UseText? ==> TextAttr(response) == Some(r.text) || response == Str(r.text)
                           || (response.Dict? && response.textEntry == Some(r.text))
                           || (Contains(Repr(response), "Translated")
                               && ExtractTextField(Repr(response)) == Some(r.text))
    ensures LastResort(response) && (Contains(Repr(response), "coroutine") || Contains(Repr(response), "object"))
            ==> r == UseFallbackOrApology
    ensures LastResort(response) && !Contains(Repr(response), "coroutine") && !Contains(Repr(response), "object")
            && Contains(Repr(response), "Translated") && ExtractTextField(Repr(response)).Some?
            ==> r == UseText(ExtractTextField(Repr(response)).value)
    ensures LastResort(response) && !Contains(Repr(response), "coroutine") && !Contains(Repr(response), "object")
            && (!Contains(Repr(response), "Translated") || ExtractTextField(Repr(response)).None?)
            ==> r == UseFallback
  {
    if LooksUnresolved(response) then UseFallback
    else if TextAttr(response).Some? then UseText(TextAttr(response).value)
    else if response.Str? then UseText(response.value)
    else if response.Dict? && response.textEntry.Some? then UseText(response.textEntry.value)
    else
      var s := Repr(response);
      if Contains(s, "coroutine") || Contains(s, "object") then UseFallbackOrApology
      else if Contains(s, "Translated") then
        match ExtractTextField(s)
        case Some(t) => UseText(t)
        case None => UseFallback
      else UseFallback
  }

  /** What `translator.translate(...)` did: raised, or returned a reply. */
  datatype Reply = Raised(err: string) | Returned(response: Response)

  /** The exception handler: one more fallback call; if that raises too, the failure message. */
  function Recover(inHandler: Result<string>): (r: string)
    ensures inHandler.Ok? ==> r == inHandler.value
    ensures inHandler.Err? ==> StartsWith(r, "Unable to translate text: ") && |r| <= 26 + 50
                               && r[26..] <= inHandler.error
    ensures inHandler.Err? && |inHandler.error| <= 50 ==> r[26..] == inHandler.error
    ensures inHandler.Err? && |inHandler.error| > 50 ==> r[26..] == inHandler.error[..50]
  {
    match inHandler
    case Ok(t) => t
    case Err(m) => "Unable to translate text: " + Excerpt(m)
  }

  /**
   * The translated text. `inTry` is what the fallback call inside the `try` block gives, `inHandler`
   * what the call inside the exception handler gives; each is used only where the source makes that call.
   */
  function Interpret(reply: Reply, inTry: Result<string>, inHandler: Result<string>): (r: string)
    ensures reply.Raised? ==> r == Recover(inHandler)
    ensures reply.Returned? && Classify(reply.response).UseText? ==> r == Classify(reply.response).text
    ensures reply.Returned? && !Classify(reply.response).UseText? && inTry.Ok? ==> r == inTry.value
    ensures reply.Returned? && Classify(reply.response) == UseFallback && inTry.Err? ==> r == Recover(inHandler)
    ensures reply.Returned? && Classify(reply.response) == UseFallbackOrApology && inTry.Err? ==> r == Apology
  {
    match reply
    case Raised(_) => Recover(inHandler)
    case Returned(response) =>
      match Classify(response)
      case UseText(t) => t
      case UseFallbackOrApology => (match inTry case Ok(t) => t case Err(_) => Apology)
      case UseFallback => (match inTry case Ok(t) => t case Err(_) => Recover(inHandler))
  }

  /** An unresolved-looking reply never yields its own text, whatever `.text` it carries. */
  lemma UnresolvedIgnoresText(repr: string, t1: string, t2: string, inTry: Result<string>, inHandler: Result<string>)
    requires LooksUnresolved(Obj(repr, true, Some(t1)))
    ensures Interpret(Returned(Obj(repr, true, Some(t1))), inTry, inHandler)
         == Interpret(Returned(Obj(repr, true, Some(t2))), inTry, inHandler)
         == (match inTry case Ok(t) => t case Err(_) => Recover(inHandler))
  {
    assert LooksUnresolved(Obj(repr, true, Some(t2)));
  }

  /** Even a plain string reply goes to the fallback when it reads like an object reference. */
  lemma ObjectReferenceStringUsesFallback(before: string, after: string, f: string)
    ensures Interpret(Returned(Str(before + "object at 0x" + after)), Ok(f), Err("")) == f
  {
    var s := before + "object at 0x" + after;
    assert OccursAt(s, "object at 0x", |before|) by {
      assert s[|before|..|before| + 12] == "object at 0x";
    }
    ContainsMeansOccurs(s, "object at 0x");
  }

  /** A reply with a `.text` and no sign of being unresolved gives exactly that text. */
  lemma TextAttributeWins(repr: string, hasDict: bool, t: string, inTry: Result<string>, inHandler: Result<string>)
    requires !StartsWith(repr, "<coroutine") && !Contains(repr, "object at 0x")
    requires !StartsWith(repr, "<googletrans.models.Translated")
    ensures Interpret(Returned(Obj(repr, hasDict, Some(t))), inTry, inHandler) == t
  {
  }

  /** An error excerpt can be at most 50 characters, so the failure message is at most 76. */
  lemma DoubleFailureMessage(e: string, m: string, inTry: Result<string>)
    ensures Interpret(Raised(e), inTry, Err(m)) == "Unable to translate text: " + Prefix(m, 50)
  {
  }

  /** With a fallback that never raises, neither failure message can appear: every route ends in a text. */
  lemma ReliableFallbackAlwaysTranslates(reply: Reply, f: string)
    ensures var r := Interpret(reply, Ok(f), Ok(f));
            r == f || (reply.Returned? && Classify(reply.response) == UseText(r))
  {
  }

  /** The interpretation does not always give a non-empty text: an empty plain string is passed through. */
  lemma EmptyStringPassesThrough(inTry: Result<string>, inHandler: Result<string>)
    ensures Interpret(Returned(Str("")), inTry, inHandler) == ""
  {
    assert !StartsWith("", "<coroutine");
    assert !Contains("", "object at 0x");
  }

  /** Nor does the extraction: an empty quoted field gives the empty text, not the fallback. */
  lemma EmptyFieldPassesThrough(s: string, inTry: Result<string>, inHandler: Result<string>)
    requires s == "Translated(text='',)"
    ensures Interpret(Returned(Other(s)), inTry, inHandler) == ""
  {
    EmptyFieldNotUnresolved(s);
    EmptyFieldMentionsTranslated(s);
    EmptyFieldExtracts(s);
    assert Classify(Other(s)) == UseText("");
  }

  lemma EmptyFieldNotUnresolved(s: string)
    requires s == "Translated(text='',)"
    ensures !LooksUnresolved(Other(s)) && !Contains(s, "coroutine") && !Contains(s, "object")
  {
    NoObjectWords(s);
    assert !StartsWith(s, "<coroutine") && !StartsWith(s, "<googletrans.models.Translated");
  }

  lemma EmptyFieldMentionsTranslated(s: string)
    requires s == "Translated(text='',)"
    ensures Contains(s, "Translated")
  {
    assert OccursAt(s, "Translated", 0) by { assert s[0..10] == "Translated"; }
    ContainsMeansOccurs(s, "Translated");
  }

  lemma EmptyFieldExtracts(s: string)
    requires s == "Translated(text='',)"
    ensures ExtractTextField(s) == Some("")
  {
    EmptyFieldShape(s);
    ExtractRoundTrip("Translated(", "''", ")");
    UnquoteRemovesOnePair("");
  }

  /** The empty field written as its parts, each meeting the conditions of `ExtractRoundTrip`. */
  lemma EmptyFieldShape(s: string)
    requires s == "Translated(text='',)"
    ensures s == "Translated(" + "text=" + "''" + "," + ")"
    ensures !Contains("Translated(" + "text", "text=")
    ensures ',' !in "''" && !IsSpace('\'') && "''" == "'" + "" + "'"
  {
    AbsentCharRulesOut("Translated(" + "text", "text=", 4);
  }

  /** A pattern whose character at `j` is absent from `s` occurs nowhere in `s`. */
  lemma AbsentCharRulesOut(s: string, p: string, j: nat)
    requires j < |p| && p[j] !in s
    ensures !Contains(s, p)
  {
    forall i | 0 <= i ensures !OccursAt(s, p, i) {
      if i + |p| <= |s| {
        assert s[i..i + |p|][j] == s[i + j];
      }
    }
    ContainsMeansOccurs(s, p);
  }

  lemma NoObjectWords(s: string)
    requires s == "Translated(text='',)"
    ensures !Contains(s, "coroutine") && !Contains(s, "object") && !Contains(s, "object at 0x")
  {
    AbsentCharRulesOut(s, "coroutine", 0);
    AbsentCharRulesOut(s, "object", 2);
    AbsentCharRulesOut(s, "object at 0x", 2);
  }
}
