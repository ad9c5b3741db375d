/** Turning records into HTML cards and the cards into the page
    (main.py:202-229). */
module Cards {
  import opened Wrappers
  import opened Text
  import opened Records

  /** One piece of an f-string: literal text, or a field interpolated as is
      (no HTML escaping). */
  datatype Segment = Lit(text: string) | Hole(key: FieldKey)

  /** The f-string of main.py:213-226, piece by piece.  `english_title`
      appears twice: as the poster's `alt` text and inside the title. */
  const CardOpen: string := "\n        <div class=\"movie-card\">\n            <img src=\""
  const PosterClose: string := "\" alt=\""
  const AltClose: string := "\" class=\"movie-poster\">\n            <h2 class=\"movie-title\">\n                <span class=\"hebrew-text\">"
  const HebrewTitleClose: string := "</span><br>\n                <span>("
  const EnglishTitleClose: string := ")</span>\n            </h2>\n            <p class=\"movie-description hebrew-text\">"
  const HebrewSummaryClose: string := "</p>\n            <p class=\"movie-description\">"
  const EnglishSummaryClose: string := "</p>\n            <p class=\"movie-description\">Age Range: "
  const AgeRangeClose: string := "</p>\n            <p class=\"movie-description\">Family-Friendly Reason: "
  const ReasonClose: string := "</p>\n            <a href=\""
  const CardClose: string := "\" target=\"_blank\" class=\"get-tickets\">Get Tickets</a>\n        </div>\n        "

  const CardLayout: seq<Segment> := [
    Lit(CardOpen),
    Hole(Poster),
    Lit(PosterClose),
    Hole(EnglishTitle),
    Lit(AltClose),
    Hole(HebrewTitle),
    Lit(HebrewTitleClose),
    Hole(EnglishTitle),
    Lit(EnglishTitleClose),
    Hole(HebrewSummary),
    Lit(HebrewSummaryClose),
    Hole(EnglishSummary),
    Lit(EnglishSummaryClose),
    Hole(AgeRange),
    Lit(AgeRangeClose),
    Hole(FamilyFriendlyReason),
    Lit(ReasonClose),
    Hole(TicketLink),
    Lit(CardClose)
  ]

  /** Evaluating an f-string layout for one movie. */
  function Fill(layout: seq<Segment>, movie: Movie): string
    decreases |layout|
  {
    if layout == [] then []
    else
      (match layout[0] case Lit(t) => t case Hole(k) => movie.Field(k))
      + Fill(layout[1..], movie)
  }

  /** The card of one movie. */
  function Card(movie: Movie): string {
    Fill(CardLayout, movie)
  }

  /** The keys a layout interpolates. */
  function HoleKeys(layout: seq<Segment>): set<FieldKey>
    decreases |layout|
  {
    if layout == [] then {}
    else (match layout[0] case Lit(_) => {} case Hole(k) => {k}) + HoleKeys(layout[1..])
  }

  /** How many times `layout[i..]` interpolates key `k`. */
  function HoleCount(layout: seq<Segment>, i: nat, k: FieldKey): nat
    decreases |layout| - i
  {
    if i >= |layout| then 0
    else (if layout[i] == Hole(k) then 1 else 0) + HoleCount(layout, i + 1, k)
  }

  /** The length of each field of a movie. */
  function Widths(movie: Movie): FieldKey -> nat {
    k => |movie.Field(k)|
  }

  /** Reads a filled layout back, given how long each interpolated field is:
      the literal text must be found where the layout puts it, and a key
      interpolated twice must have the same value both times. */
  function Read(layout: seq<Segment>, s: string, width: FieldKey -> nat): Option<map<FieldKey, string>>
    decreases |layout|
  {
    if layout == [] then (if s == [] then Some(map[]) else None)
    else match layout[0]
      case Lit(t) =>
        if |t| <= |s| && s[..|t|] == t then Read(layout[1..], s[|t|..], width) else None
      case Hole(k) =>
        if width(k) <= |s| then
          var v := s[..width(k)];
          var rest := Read(layout[1..], s[width(k)..], width);
          if rest.Some? && (k !in rest.value || rest.value[k] == v) then Some(rest.value[k := v])
          else None
        else None
  }

  /** Every field is embedded verbatim: reading a filled layout back gives the
      movie's value for each key the layout interpolates. */
  lemma {:induction false} ReadFill(layout: seq<Segment>, movie: Movie)
    ensures Read(layout, Fill(layout, movie), Widths(movie))
            == Some(map k | k in HoleKeys(layout) :: movie.Field(k))
    decreases |layout|
  {
    if layout != [] {
      var s := Fill(layout, movie);
      var tail := Fill(layout[1..], movie);
      ReadFill(layout[1..], movie);
      match layout[0]
      case Lit(t) =>
        assert s == t + tail;
        assert s[..|t|] == t && s[|t|..] == tail;
        assert HoleKeys(layout) == HoleKeys(layout[1..]);
      case Hole(k) =>
        var v := movie.Field(k);
        assert s == v + tail;
        assert s[..Widths(movie)(k)] == v && s[Widths(movie)(k)..] == tail;
        var rest := map j | j in HoleKeys(layout[1..]) :: movie.Field(j);
        assert rest[k := v] == map j | j in HoleKeys(layout) :: movie.Field(j);
    }
  }

  /** Reads a card back into the movie it shows. */
  function ReadCard(s: string, width: FieldKey -> nat): Option<Movie> {
    match Read(CardLayout, s, width)
    case None => None
    case Some(f) =>
      if Poster in f && HebrewTitle in f && EnglishTitle in f && HebrewSummary in f
         && EnglishSummary in f && AgeRange in f && FamilyFriendlyReason in f && TicketLink in f
      then Some(Movie(f[Poster], f[HebrewTitle], f[EnglishTitle], f[HebrewSummary],
                      f[EnglishSummary], f[AgeRange], f[FamilyFriendlyReason], f[TicketLink]))
      else None
  }

  /** A layout interpolates a key exactly when it counts it at least once. */
  lemma {:induction false} HoleKeysCounted(layout: seq<Segment>, i: nat, k: FieldKey)
    requires i <= |layout|
    ensures k in HoleKeys(layout[i..]) <==> HoleCount(layout, i, k) > 0
    decreases |layout| - i
  {
    if i < |layout| {
      assert layout[i..][0] == layout[i] && layout[i..][1..] == layout[i + 1..];
      HoleKeysCounted(layout, i + 1, k);
    }
  }

  /** The card interpolates the English title twice and each other field once. */
  lemma CardLayoutCount(k: FieldKey)
    ensures HoleCount(CardLayout, 0, k) == if k == EnglishTitle then 2 else 1
  {
    var l := CardLayout;
    assert HoleCount(l, 19, k) == 0;
    assert HoleCount(l, 17, k) == if k == TicketLink then 1 else 0;
    assert HoleCount(l, 15, k) == if k in {TicketLink, FamilyFriendlyReason} then 1 else 0;
    assert HoleCount(l, 13, k) == if k in {TicketLink, FamilyFriendlyReason, AgeRange} then 1 else 0;
    assert HoleCount(l, 11, k)
      == if k in {TicketLink, FamilyFriendlyReason, AgeRange, EnglishSummary} then 1 else 0;
    assert HoleCount(l, 9, k)
      == if k in {TicketLink, FamilyFriendlyReason, AgeRange, EnglishSummary, HebrewSummary} then 1 else 0;
    assert HoleCount(l, 7, k) == if k in {HebrewTitle, Poster} then 0 else 1;
    assert HoleCount(l, 5, k) == if k == Poster then 0 else 1;
    assert HoleCount(l, 3, k) == if k == Poster then 0 else if k == EnglishTitle then 2 else 1;
    assert HoleCount(l, 1, k) == if k == EnglishTitle then 2 else 1;
  }

  /** A card shows all eight fields of its movie verbatim, the English title
      in two places and every other field in one. */
  lemma CardShowsEveryField(movie: Movie)
    ensures ReadCard(Card(movie), Widths(movie)) == Some(movie)
    ensures forall k :: HoleCount(CardLayout, 0, k) == (if k == EnglishTitle then 2 else 1)
  {
    forall k ensures HoleCount(CardLayout, 0, k) == (if k == EnglishTitle then 2 else 1) && k in HoleKeys(CardLayout) {
      CardLayoutCount(k);
      HoleKeysCounted(CardLayout, 0, k);
      assert CardLayout[0..] == CardLayout;
    }
    ReadFill(CardLayout, movie);
  }

  /** The cards of a list of records: card `i` is the card of record `i`. */
  function CardsOf(objects: seq<JsonObject>): seq<string> {
    seq(|objects|, i requires 0 <= i < |objects| => Card(FromObject(objects[i])))
  }

  /** The cards of two lists of records in a row are the cards of the first
      list followed by those of the second: the record order is kept. */
  lemma CardsOfAppend(a: seq<JsonObject>, b: seq<JsonObject>)
    ensures CardsOf(a + b) == CardsOf(a) + CardsOf(b)
  {
  }

  /** What the card loop produces for `movies_data`: the cards, or the
      exception it stops with. */
  function CardsFor(data: JsonValue): Result<seq<string>, Crash> {
    match MovieObjects(data)
    case Success(objects) => Success(CardsOf(objects))
    case Failure(e) => Failure(e)
  }

  /** The loop of main.py:202-227. */
  method BuildCards(data: JsonValue) returns (r: Result<seq<string>, Crash>)
    ensures r == CardsFor(data)
  {
    match data {
      case JArray(es) =>
        var cardsHtml: seq<string> := [];
        for i := 0 to |es|
          invariant forall j :: 0 <= j < i ==> es[j].JObject?
          invariant |cardsHtml| == i
          invariant forall j :: 0 <= j < i ==> cardsHtml[j] == Card(FromObject(es[j].members))
        {
          if !es[i].JObject? {
            // `m.get` on an item that is not a dict.
            assert MovieObjects(data) == Failure(NoGetMethod);
            return Failure(NoGetMethod);
          }
          var movie := FromObject(es[i].members);
          cardsHtml := cardsHtml + [Card(movie)];
        }
        var objects := MovieObjects(data).value;
        assert forall j :: 0 <= j < |es| ==> objects[j] == es[j].members;
        assert cardsHtml == CardsOf(objects);
        r := Success(cardsHtml);
      case JObject(ms) =>
        assert CardsOf([]) == [];
        // Iterating a dict yields its keys: strings, without `get`.
        r := if ms == map[] then Success([]) else Failure(NoGetMethod);
      case JString(t) =>
        assert CardsOf([]) == [];
        // Iterating a string yields its characters: strings, without `get`.
        r := if t == [] then Success([]) else Failure(NoGetMethod);
      case _ =>
        r := Failure(NotIterable);
    }
  }

  /** The placeholder the cards replace (main.py:116, 229). */
  const Placeholder: string := "{{MOVIE_CARDS}}"

  /** `html_template.replace("{{MOVIE_CARDS}}", "\n".join(cards_html))`. */
  function Page(template: string, cards: seq<string>): string {
    Replace(template, Placeholder, Join("\n", cards))
  }

  /** With one placeholder in the template, the page is the template with the
      newline-joined cards in its place and every other character unchanged. */
  lemma PageFillsPlaceholder(pre: string, suf: string, cards: seq<string>)
    requires OnlyMatchAt(pre + Placeholder + suf, Placeholder, |pre|)
    ensures Page(pre + Placeholder + suf, cards) == pre + Join("\n", cards) + suf
    ensures cards == [] ==> Page(pre + Placeholder + suf, cards) == pre + suf
  {
    ReplaceOnce(pre, Placeholder, suf, Join("\n", cards));
  }
}
