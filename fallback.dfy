/**
 * The degraded-mode translator: a fixed phrase table first, then one direct request to the
 * public translation endpoint, then a fixed "unavailable" message. It always returns a string.
 * The endpoint is a parameter: a function from the request to what the HTTP call gave back.
 */
module Fallback {
  import opened Wrappers
  import opened PyStr
  import opened PyJson
  import opened Truncation

  /** Six common phrases, each with its Hindi, Spanish, French and German translation. */
  const Phrases: map<string, map<string, string>> := map[
    "hello" := map["hi" := "नमस्ते", "es" := "hola", "fr" := "bonjour", "de" := "hallo"],
    "how are you" := map["hi" := "आप कैसे हैं", "es" := "cómo estás", "fr" := "comment allez-vous",
                         "de" := "wie geht es dir"],
    "thank you" := map["hi" := "धन्यवाद", "es" := "gracias", "fr" := "merci", "de" := "danke"],
    "goodbye" := map["hi" := "अलविदा", "es" := "adiós", "fr" := "au revoir", "de" := "auf wiedersehen"],
    "yes" := map["hi" := "हां", "es" := "sí", "fr" := "oui", "de" := "ja"],
    "no" := map["hi" := "नहीं", "es" := "no", "fr" := "non", "de" := "nein"]
  ]

  /** The phrase table looked up with the lower-cased text. */
  function PhraseLookup(text: string, dest: string): (r: Option<string>)
    ensures r.Some? <==> Lower(text) in Phrases && dest in Phrases[Lower(text)]
    ensures r.Some? ==> r.value == Phrases[Lower(text)][dest]
  {
    var key := Lower(text);
    if key in Phrases && dest in Phrases[key] then Some(Phrases[key][dest]) else None
  }

  /** Exactly the six phrases are in the table. */
  lemma PhraseTableKeys()
    ensures Phrases.Keys == {"hello", "how are you", "thank you", "goodbye", "yes", "no"}
  {
  }

  /** Each phrase is translated for exactly the targets hi, es, fr and de. */
  lemma PhraseTableTargets()
    ensures forall key :: key in Phrases ==> Phrases[key].Keys == {"hi", "es", "fr", "de"}
  {
  }

  /** A GET request: the URL and its query parameters, in order. */
  datatype Request = Request(url: string, params: seq<(string, string)>)

  function TranslateRequest(text: string, src: string, dest: string): Request {
    Request("https://translate.googleapis.com/translate_a/single",
            [("client", "gtx"), ("sl", src), ("tl", dest), ("dt", "t"), ("q", text)])
  }

  /** The body of a reply: JSON that decodes, or one on which `response.json()` raises. */
  datatype Body = Malformed | Decoded(json: Json)

  /** What the HTTP GET gave: an exception, or a status code with a body. */
  datatype HttpOutcome = HttpFailed(err: string) | Reply(status: int, body: Body)

  /** The message returned when no translation could be obtained. */
  function Unavailable(text: string): (r: string)
    ensures OccursAt(r, text, 29)
  {
    var r := "Translation unavailable for '" + text + "'. Try again or use another language.";
    assert r[29..29 + |text|] == text;
    r
  }

  /**
   * The message of the outermost exception handler: "Translation failed: " and an excerpt of at most
   * 50 characters of the exception text.
   */
  function FailureMessage(err: string): (r: string)
    ensures StartsWith(r, "Translation failed: ") && |r| <= 20 + 50
    ensures r[20..] <= err && (|err| <= 50 ==> r[20..] == err)
    ensures |err| > 50 ==> r[20..] == err[..50]
  {
    "Translation failed: " + Excerpt(err)
  }

  /**
   * The segments of a decoded reply: the guard `result and len(result) > 0 and len(result[0]) > 0`
   * and then iteration over `result[0]`. `None` when the guard fails or one of its steps raises.
   */
  function Segments(result: Json): (r: Option<seq<Json>>)
    ensures !result.JArr? && !result.JStr? ==> r.None?
    ensures result.JArr? && (result.items == [] || result.items[0].JNull? || result.items[0].JBool?
                             || result.items[0].JNum?)
            ==> r.None?
    ensures result.JArr? && result.items != [] && result.items[0].JArr?
            ==> r == if result.items[0].items == [] then None else Some(result.items[0].items)
  {
    if !Truthy(result) then None
    else match Len(result)
      case None => None
      case Some(n) =>
        if n == 0 then None
        else match First(result)
          case None => None
          case Some(head) =>
            match Len(head)
            case None => None
            case Some(m) => if m == 0 then None else Iterate(head)
  }

  /** One pass of the loop body: `if segment and len(segment) > 0: translated += segment[0]`. */
  function Absorb(acc: string, segment: Json): Option<string> {
    if !Truthy(segment) then Some(acc)
    else match Len(segment)
      case None => None
      case Some(n) =>
        if n == 0 then Some(acc)
        else match First(segment)
          case None => None
          case Some(x) => AppendText(acc, x)
  }

  /** The loop over the segments, from the left; `None` once a segment raises. */
  function Joined(segments: seq<Json>): Option<string>
    decreases |segments|
  {
    if segments == [] then Some("")
    else match Joined(segments[..|segments| - 1])
      case None => None
      case Some(acc) => Absorb(acc, segments[|segments| - 1])
  }

  lemma {:induction false} JoinedFailureSticks(segments: seq<Json>, k: nat)
    requires k <= |segments| && Joined(segments[..k]).None?
    ensures Joined(segments).None?
    decreases |segments|
  {
    if k < |segments| {
      var init := segments[..|segments| - 1];
      assert init[..k] == segments[..k];
      JoinedFailureSticks(init, k);
    } else {
      assert segments[..k] == segments;
    }
  }

  /** Builds `translated` with the `+=` loop over the segments, stopping at the first one that raises. */
  method ConcatSegments(segments: seq<Json>) returns (r: Option<string>)
    ensures r == Joined(segments)
  {
    var translated := "";
    var i := 0;
    while i < |segments|
      invariant 0 <= i <= |segments|
      invariant Joined(segments[..i]) == Some(translated)
    {
      var segment := segments[i];
      assert segments[..i + 1][..i] == segments[..i];
      if Truthy(segment) {
        var n := Len(segment);
        if n.None? {
          JoinedFailureSticks(segments, i + 1);
          return None;
        }
        if n.value > 0 {
          var x := First(segment);
          if x.None? || !x.value.JStr? {
            JoinedFailureSticks(segments, i + 1);
            return None;
          }
          translated := translated + x.value.s;
        }
      }
      i := i + 1;
    }
    assert segments[..i] == segments;
    r := Some(translated);
  }

  /** A segment the loop gets through: skipped because it is empty or null, or one whose `[0]` is a string. */
  predicate Usable(segment: Json) {
    !Truthy(segment) || segment.JStr? || (segment.JArr? && segment.items[0].JStr?)
  }

  /** What a usable segment contributes: nothing if skipped, else the text of its first element. */
  function FirstText(segment: Json): string
    requires Usable(segment)
  {
    if !Truthy(segment) then ""
    else if segment.JStr? then [segment.s[0]]
    else segment.items[0].s
  }

  /** The reference reading of the reply: the first elements of the segments, concatenated in order. */
  function FirstTexts(segments: seq<Json>): string
    requires forall i :: 0 <= i < |segments| ==> Usable(segments[i])
  {
    if segments == [] then "" else FirstText(segments[0]) + FirstTexts(segments[1..])
  }

  lemma {:induction false} FirstTextsSnoc(segments: seq<Json>, last: Json)
    requires forall i :: 0 <= i < |segments| ==> Usable(segments[i])
    requires Usable(last)
    ensures FirstTexts(segments + [last]) == FirstTexts(segments) + FirstText(last)
  {
    if segments != [] {
      assert (segments + [last])[1..] == segments[1..] + [last];
      FirstTextsSnoc(segments[1..], last);
    } else {
      assert [last][1..] == [];
    }
  }

  /** The loop succeeds exactly when every segment is usable, and then yields the concatenation of first texts. */
  lemma {:induction false} JoinedIsFirstTexts(segments: seq<Json>)
    ensures Joined(segments).Some? <==> forall i :: 0 <= i < |segments| ==> Usable(segments[i])
    ensures Joined(segments).Some? ==> Joined(segments).value == FirstTexts(segments)
    decreases |segments|
  {
    if segments != [] {
      var init, last := segments[..|segments| - 1], segments[|segments| - 1];
      assert segments == init + [last];
      JoinedIsFirstTexts(init);
      if Joined(init).Some? && Usable(last) {
        FirstTextsSnoc(init, last);
      }
    }
  }

  /** The text a reply yields: only a 200 reply whose JSON passes the guard and the loop. */
  function ReplyText(outcome: HttpOutcome): Option<string> {
    match outcome
    case HttpFailed(_) => None
    case Reply(status, body) =>
      if status != 200 then None
      else match body
        case Malformed => None
        case Decoded(result) =>
          match Segments(result)
          case None => None
          case Some(segments) => Joined(segments)
  }

  /** `fallback_translate(text, src_lang, dest_lang)`, with the endpoint as a parameter. */
  function FallbackSpec(text: string, src: string, dest: string, endpoint: Request -> HttpOutcome): (r: string)
    ensures PhraseLookup(text, dest).Some? ==> r == PhraseLookup(text, dest).value
    ensures PhraseLookup(text, dest).None? ==>
              r == (match ReplyText(endpoint(TranslateRequest(text, src, dest)))
                    case Some(t) => t
                    case None => Unavailable(text))
  {
    match PhraseLookup(text, dest)
    case Some(v) => v
    case None =>
      match ReplyText(endpoint(TranslateRequest(text, src, dest)))
      case Some(t) => t
      case None => Unavailable(text)
  }

  /** The translator as the program runs it: table, then request, then the loop, then the message. */
  method FallbackTranslate(text: string, src: string, dest: string, endpoint: Request -> HttpOutcome)
    returns (r: string)
    ensures r == FallbackSpec(text, src, dest, endpoint)
  {
    var hit := PhraseLookup(text, dest);
    if hit.Some? {
      return hit.value;
    }
    var reply := endpoint(TranslateRequest(text, src, dest));
    r := Unavailable(text);
    if reply.Reply? && reply.status == 200 && reply.body.Decoded? {
      var segments := Segments(reply.body.json);
      if segments.Some? {
        var joined := ConcatSegments(segments.value);
        if joined.Some? {
          r := joined.value;
        }
      }
    }
  }

  /** A phrase-table hit is answered without the endpoint: two different endpoints give the same answer. */
  lemma PhraseHitIgnoresEndpoint(text: string, src: string, dest: string,
                                 e1: Request -> HttpOutcome, e2: Request -> HttpOutcome)
    requires Lower(text) in Phrases && dest in Phrases[Lower(text)]
    ensures FallbackSpec(text, src, dest, e1) == FallbackSpec(text, src, dest, e2)
                                              == Phrases[Lower(text)][dest]
  {
  }

  /** "Hello" to Hindi comes from the table, whatever the endpoint would say. */
  lemma HelloToHindi(src: string, endpoint: Request -> HttpOutcome)
    ensures FallbackSpec("Hello", src, "hi", endpoint) == "नमस्ते"
  {
    LowerHello("Hello");
    assert Phrases["hello"]["hi"] == "नमस्ते";
  }

  /** `"Hello".lower()`. */
  lemma LowerHello(s: string)
    requires s == "Hello"
    ensures Lower(s) == "hello"
  {
    assert Lower(s)[0] == 'h';
  }

  /** On a table miss, a failed, non-200 or undecodable reply ends in the message naming the text. */
  lemma MissWithoutReplyIsUnavailable(text: string, src: string, dest: string, endpoint: Request -> HttpOutcome)
    requires PhraseLookup(text, dest).None?
    requires var o := endpoint(TranslateRequest(text, src, dest));
             o.HttpFailed? || (o.Reply? && (o.status != 200 || o.body.Malformed?))
    ensures FallbackSpec(text, src, dest, endpoint) == Unavailable(text)
  {
  }

  /** A 200 reply whose first element is a non-empty list of usable segments yields their first texts. */
  lemma {:induction false} ReplyOfUsableSegments(segments: seq<Json>, rest: seq<Json>)
    requires segments != [] && forall i :: 0 <= i < |segments| ==> Usable(segments[i])
    ensures ReplyText(Reply(200, Decoded(JArr([JArr(segments)] + rest)))) == Some(FirstTexts(segments))
  {
    var result := JArr([JArr(segments)] + rest);
    assert result.items[0] == JArr(segments);
    JoinedIsFirstTexts(segments);
  }

  /**
   * On a table miss, a 200 reply whose first element is a non-empty list of usable segments gives
   * the in-order concatenation of their first elements.
   */
  lemma MissWithReplyConcatenates(text: string, src: string, dest: string, endpoint: Request -> HttpOutcome,
                                  segments: seq<Json>, rest: seq<Json>)
    requires PhraseLookup(text, dest).None?
    requires endpoint(TranslateRequest(text, src, dest)) == Reply(200, Decoded(JArr([JArr(segments)] + rest)))
    requires segments != [] && forall i :: 0 <= i < |segments| ==> Usable(segments[i])
    ensures FallbackSpec(text, src, dest, endpoint) == FirstTexts(segments)
  {
    ReplyOfUsableSegments(segments, rest);
  }

  /** A 200 reply with a segment that raises (a number where a list is expected) falls back to the message. */
  lemma MissWithBadSegmentIsUnavailable(text: string, src: string, dest: string, endpoint: Request -> HttpOutcome,
                                        segments: seq<Json>, k: nat)
    requires PhraseLookup(text, dest).None?
    requires endpoint(TranslateRequest(text, src, dest)) == Reply(200, Decoded(JArr([JArr(segments)])))
    requires k < |segments| && !Usable(segments[k])
    ensures FallbackSpec(text, src, dest, endpoint) == Unavailable(text)
  {
    var result := JArr([JArr(segments)]);
    assert result.items[0] == JArr(segments);
    assert Segments(result) == Some(segments);
    JoinedIsFirstTexts(segments);
    assert ReplyText(Reply(200, Decoded(result))) == None;
  }
}
