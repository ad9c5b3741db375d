/** The deterministic part of `main()` end to end: from the agent's history and
    the outcome of parsing the LLM reply to the page written to disk. */
module Pipeline {
  import opened Wrappers
  import opened Text
  import opened Harvest
  import opened Records
  import opened Cards

  /** The page built from `movies_data`, or the exception the card loop stops with. */
  function Rendered(data: JsonValue, template: string): Result<string, Crash> {
    match CardsFor(data)
    case Success(cards) => Success(Page(template, cards))
    case Failure(e) => Failure(e)
  }

  /** The page `main()` writes, or the exception that stops it first. */
  function PageFor(history: History, reply: ParseOutcome, template: string): Result<string, Crash> {
    Rendered(Reconcile(reply, Transcript(FinalTexts(history))), template)
  }

  /** main.py:134-229 without the two external calls: the history and the
      parse outcome are inputs, the page is returned instead of written. */
  method RecommendationPage(history: History, reply: ParseOutcome, template: string)
    returns (page: Result<string, Crash>)
    ensures page == PageFor(history, reply, template)
  {
    var finalTexts := CollectFinalTexts(history);
    var combinedOutput := Transcript(finalTexts);
    var moviesData := Reconcile(reply, combinedOutput);
    var cardsHtml := BuildCards(moviesData);
    if cardsHtml.Failure? {
      return Failure(cardsHtml.error);
    }
    page := Success(Page(template, cardsHtml.value));
  }

  /** A reply that is not valid JSON still gives a page: exactly one card, the
      diagnostic one, showing the raw transcript as its Hebrew summary. */
  lemma MalformedReplyGivesDiagnosticCard(transcript: string, pre: string, suf: string)
    requires OnlyMatchAt(pre + Placeholder + suf, Placeholder, |pre|)
    ensures Rendered(Reconcile(Malformed, transcript), pre + Placeholder + suf) == Success(pre + Card(Movie(
      PlaceholderPoster, "שגיאת JSON", "JSON Error", transcript,
      "Could not parse JSON from LLM translation.", "N/A", "N/A", TheaterIndex)) + suf)
  {
    var cards := CardsOf([DiagnosticRecord(transcript)]);
    DiagnosticMovie(transcript);
    assert cards == [Card(FromObject(DiagnosticRecord(transcript)))];
    PageFillsPlaceholder(pre, suf, cards);
  }

  /** An array reply gets through the card loop exactly when every element
      is an object; otherwise the run stops at `m.get`. */
  lemma ArrayReplyRendersIffAllObjects(elements: seq<JsonValue>, template: string)
    ensures Rendered(JArray(elements), template).Success?
            <==> forall i :: 0 <= i < |elements| ==> elements[i].JObject?
    ensures Rendered(JArray(elements), template).Failure?
            ==> Rendered(JArray(elements), template).error == NoGetMethod
  {
  }

  /** An array of objects gives the template with the cards of the objects,
      one per object and in order, joined by newlines in place of the
      placeholder. */
  lemma ObjectsReplyGivesOneCardPerObject(objects: seq<JsonObject>, pre: string, suf: string)
    requires OnlyMatchAt(pre + Placeholder + suf, Placeholder, |pre|)
    ensures Rendered(JArray(seq(|objects|, i requires 0 <= i < |objects| => JObject(objects[i]))),
                     pre + Placeholder + suf)
            == Success(pre + Join("\n", CardsOf(objects)) + suf)
  {
    var es := seq(|objects|, i requires 0 <= i < |objects| => JObject(objects[i]));
    assert forall i :: 0 <= i < |es| ==> es[i].JObject?;
    assert MovieObjects(JArray(es)).value == objects;
    PageFillsPlaceholder(pre, suf, CardsOf(objects));
  }

  /** The reply `[]` gives the template with the placeholder removed: a page
      without cards, not an error. */
  lemma EmptyArrayGivesEmptyGrid(pre: string, suf: string)
    requires OnlyMatchAt(pre + Placeholder + suf, Placeholder, |pre|)
    ensures Rendered(JArray([]), pre + Placeholder + suf) == Success(pre + suf)
  {
    assert CardsOf(MovieObjects(JArray([])).value) == [];
    PageFillsPlaceholder(pre, suf, []);
  }

  /** Two records give two cards, in order, separated by one newline. */
  lemma TwoRecordsGiveTwoCards(a: JsonObject, b: JsonObject, pre: string, suf: string)
    requires OnlyMatchAt(pre + Placeholder + suf, Placeholder, |pre|)
    ensures Rendered(JArray([JObject(a), JObject(b)]), pre + Placeholder + suf)
            == Success(pre + Card(FromObject(a)) + "\n" + Card(FromObject(b)) + suf)
  {
    var es := [JObject(a), JObject(b)];
    assert forall i :: 0 <= i < |es| ==> es[i].JObject?;
    assert MovieObjects(JArray(es)).value == [a, b];
    var cards := CardsOf([a, b]);
    assert cards == [Card(FromObject(a)), Card(FromObject(b))];
    assert cards[1..] == [Card(FromObject(b))];
    var c1, c2 := Card(FromObject(a)), Card(FromObject(b));
    assert Join("\n", cards) == c1 + "\n" + c2;
    PageFillsPlaceholder(pre, suf, cards);
    assert pre + (c1 + "\n" + c2) + suf == pre + c1 + "\n" + c2 + suf;
  }

  /** Valid JSON that is not an array is not treated like a malformed reply:
      a non-empty object or string stops the run at `m.get`, a number, boolean
      or null at the `for`, and an empty object or string gives no cards. */
  lemma NonArrayReplyIsNotRecovered(value: JsonValue, transcript: string, template: string)
    requires !value.JArray?
    ensures var page := Rendered(Reconcile(Parsed(value), transcript), template);
      match value
      case JObject(ms) => page == if ms == map[] then Success(Page(template, [])) else Failure(NoGetMethod)
      case JString(t) => page == if t == [] then Success(Page(template, [])) else Failure(NoGetMethod)
      case _ => page == Failure(NotIterable)
  {
    assert CardsOf([]) == [];
  }
}
