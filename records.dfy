/** The movie record, its per-key defaults, the abstract outcome of parsing the
    LLM reply as JSON, and the diagnostic record substituted when that parse
    fails (main.py:186-211). */
module Records {
  import opened Wrappers

  /** Poster URL of the diagnostic record (main.py:192). */
  const PlaceholderPoster: string := "https://via.placeholder.com/300x450/000/fff?text=No+Poster"
  /** Poster used when a record has no "poster" key (main.py:204). */
  const DefaultPosterAsset: string := "html_assets/default_poster.png"
  /** Theater index page: the ticket link of the diagnostic record and the
      default when a record has no "ticket_link" key (main.py:199, 211). */
  const TheaterIndex: string := "https://hotcinema.co.il/theater/1"

  /** The eight keys a record is read with. */
  datatype FieldKey =
    | Poster | HebrewTitle | EnglishTitle | HebrewSummary
    | EnglishSummary | AgeRange | FamilyFriendlyReason | TicketLink

  /** The JSON key under which each field is looked up. */
  function KeyName(k: FieldKey): string {
    match k
    case Poster => "poster"
    case HebrewTitle => "hebrew_title"
    case EnglishTitle => "english_title"
    case HebrewSummary => "hebrew_summary"
    case EnglishSummary => "english_summary"
    case AgeRange => "age_range"
    case FamilyFriendlyReason => "family_friendly_reason"
    case TicketLink => "ticket_link"
  }

  /** The value a record gets for a key it lacks (main.py:204-211). */
  function Default(k: FieldKey): string {
    match k
    case Poster => DefaultPosterAsset
    case TicketLink => TheaterIndex
    case _ => ""
  }

  /** A record with every field read: what one card displays. */
  datatype Movie = Movie(
    poster: string, hebrewTitle: string, englishTitle: string,
    hebrewSummary: string, englishSummary: string, ageRange: string,
    familyFriendlyReason: string, ticketLink: string)
  {
    function Field(k: FieldKey): string {
      match k
      case Poster => poster
      case HebrewTitle => hebrewTitle
      case EnglishTitle => englishTitle
      case HebrewSummary => hebrewSummary
      case EnglishSummary => englishSummary
      case AgeRange => ageRange
      case FamilyFriendlyReason => familyFriendlyReason
      case TicketLink => ticketLink
    }
  }

  /** A JSON object as the loop sees it: each member's value is the text the
      f-string interpolates for it (for a JSON string, the string itself). */
  type JsonObject = map<string, string>

  /** A parsed JSON value, as far as the card loop distinguishes them. */
  datatype JsonValue =
    | JNull
    | JBool(b: bool)
    | JNumber(literal: string)
    | JString(text: string)
    | JArray(elements: seq<JsonValue>)
    | JObject(members: JsonObject)

  /** The outcome of `json.loads` on the LLM reply: a value, or a decode error. */
  datatype ParseOutcome = Parsed(value: JsonValue) | Malformed

  /** The Python exception that ends the run when the parsed value is not a
      list of objects: `AttributeError` when an iterated item has no `get`
      method, `TypeError` when the value cannot be iterated at all. */
  datatype Crash = NoGetMethod | NotIterable

  /** `m.get(key, default)`. */
  function Get(m: JsonObject, key: string, default: string): string {
    if key in m then m[key] else default
  }

  /** The eight `m.get` reads of main.py:204-211: a key that is present keeps
      its value, a missing key gets its default. */
  function FromObject(m: JsonObject): (r: Movie)
    ensures forall k :: KeyName(k) in m ==> r.Field(k) == m[KeyName(k)]
    ensures forall k :: KeyName(k) !in m ==> r.Field(k) == Default(k)
  {
    Movie(
      Get(m, "poster", DefaultPosterAsset),
      Get(m, "hebrew_title", ""),
      Get(m, "english_title", ""),
      Get(m, "hebrew_summary", ""),
      Get(m, "english_summary", ""),
      Get(m, "age_range", ""),
      Get(m, "family_friendly_reason", ""),
      Get(m, "ticket_link", TheaterIndex))
  }

  /** The JSON object holding exactly a movie's eight fields. */
  function ToObject(movie: Movie): JsonObject {
    map[
      "poster" := movie.poster,
      "hebrew_title" := movie.hebrewTitle,
      "english_title" := movie.englishTitle,
      "hebrew_summary" := movie.hebrewSummary,
      "english_summary" := movie.englishSummary,
      "age_range" := movie.ageRange,
      "family_friendly_reason" := movie.familyFriendlyReason,
      "ticket_link" := movie.ticketLink]
  }

  /** A record with all eight keys is read back unchanged. */
  lemma FromToObject(movie: Movie)
    ensures FromObject(ToObject(movie)) == movie
    ensures ToObject(movie).Keys == set k: FieldKey :: KeyName(k)
  {
    var keys := set k: FieldKey :: KeyName(k);
    forall x | x in ToObject(movie).Keys ensures x in keys {
      if x == "poster" { assert KeyName(Poster) == x; }
      else if x == "hebrew_title" { assert KeyName(HebrewTitle) == x; }
      else if x == "english_title" { assert KeyName(EnglishTitle) == x; }
      else if x == "hebrew_summary" { assert KeyName(HebrewSummary) == x; }
      else if x == "english_summary" { assert KeyName(EnglishSummary) == x; }
      else if x == "age_range" { assert KeyName(AgeRange) == x; }
      else if x == "family_friendly_reason" { assert KeyName(FamilyFriendlyReason) == x; }
      else { assert KeyName(TicketLink) == x; }
    }
  }

  /** Keys other than the eight are ignored. */
  lemma OtherKeysIgnored(m: JsonObject, extra: JsonObject)
    requires forall k :: KeyName(k) !in extra
    ensures FromObject(m + extra) == FromObject(m)
  {
    var a, b := FromObject(m + extra), FromObject(m);
    assert forall k :: a.Field(k) == b.Field(k);
    assert a.poster == b.Field(Poster) && a.hebrewTitle == b.Field(HebrewTitle)
      && a.englishTitle == b.Field(EnglishTitle) && a.hebrewSummary == b.Field(HebrewSummary)
      && a.englishSummary == b.Field(EnglishSummary) && a.ageRange == b.Field(AgeRange)
      && a.familyFriendlyReason == b.Field(FamilyFriendlyReason) && a.ticketLink == b.Field(TicketLink);
  }

  /** The one record substituted when the reply is not valid JSON
      (main.py:191-200): it carries the raw transcript in "hebrew_summary". */
  function DiagnosticRecord(transcript: string): JsonObject {
    map[
      "poster" := PlaceholderPoster,
      "hebrew_title" := "שגיאת JSON",
      "english_title" := "JSON Error",
      "hebrew_summary" := transcript,
      "english_summary" := "Could not parse JSON from LLM translation.",
      "age_range" := "N/A",
      "family_friendly_reason" := "N/A",
      "ticket_link" := TheaterIndex]
  }

  /** The objects `for m in movies_data` hands to `m.get`, in order, or the
      exception the loop raises.  Iterating a dict yields its keys and
      iterating a string its characters; both are strings, which have no
      `get`, so only an empty dict or string gets through, with no items. */
  function MovieObjects(data: JsonValue): Result<seq<JsonObject>, Crash> {
    match data
    case JArray(es) =>
      if forall i :: 0 <= i < |es| ==> es[i].JObject? then
        Success(seq(|es|, i requires 0 <= i < |es| && es[i].JObject? => es[i].members))
      else Failure(NoGetMethod)
    case JObject(ms) => if ms == map[] then Success([]) else Failure(NoGetMethod)
    case JString(t) => if t == [] then Success([]) else Failure(NoGetMethod)
    case _ => Failure(NotIterable)
  }

  /** `movies_data` after the try/except of main.py:188-200: the parsed value
      as it is, or a list holding the diagnostic record alone, which the card
      loop always gets through. */
  function Reconcile(reply: ParseOutcome, transcript: string): (data: JsonValue)
    ensures reply.Parsed? ==> data == reply.value
    ensures reply.Malformed? ==> MovieObjects(data) == Success([DiagnosticRecord(transcript)])
  {
    match reply
    case Parsed(v) => v
    case Malformed =>
      var es := [JObject(DiagnosticRecord(transcript))];
      assert forall i :: 0 <= i < |es| ==> es[i].JObject?;
      assert MovieObjects(JArray(es)).value == [DiagnosticRecord(transcript)];
      JArray(es)
  }

  /** The movie the diagnostic record becomes: defaulting changes none of its
      fields, so its poster stays the placeholder URL and its Hebrew summary
      is the transcript verbatim. */
  lemma DiagnosticMovie(transcript: string)
    ensures FromObject(DiagnosticRecord(transcript)) == Movie(
      PlaceholderPoster, "שגיאת JSON", "JSON Error", transcript,
      "Could not parse JSON from LLM translation.", "N/A", "N/A", TheaterIndex)
  {
  }
}
