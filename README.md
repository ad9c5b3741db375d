# Movie recommender: verified model of the result pipeline

`main.py` drives a browser agent over a cinema site, hands the agent's output
to an LLM that is asked to turn it into a JSON array of movie records, and
writes an HTML page with one card per movie. Between those two external calls
sit three deterministic transformations. This project models them in Dafny and
proves what they guarantee:

1. **Harvesting the transcript** (`Harvest`). The agent's history is a
   sequence of steps. Each step has an optional list of results, and each
   result has an optional extracted content and an optional error. Only the
   last step is read. Its non-empty contents are collected in order by a loop
   (`CollectFinalTexts`), joined with `"\n"` and stripped (`Transcript`).
2. **Reconciling the LLM reply** (`Records`). The outcome of `json.loads` is
   an input: `Parsed(value)` or `Malformed`. A parsed value is kept as it is.
   A decode error is replaced by a list holding one diagnostic record, which
   carries the raw transcript in `hebrew_summary` (`Reconcile`).
3. **Cards and page** (`Cards`). Each record is read with a per-key default
   (`FromObject`). It is turned into a card by the f-string of main.py:213-226,
   which is modelled as a layout of literal and interpolated pieces
   (`CardLayout`, `Fill`). The cards are built by a loop (`BuildCards`),
   joined with `"\n"` and substituted for `{{MOVIE_CARDS}}` in the page
   template (`Page`).

`Text` models the three Python string operations involved: `str.strip()`,
`sep.join` and `str.replace`. `Pipeline` composes everything from history and
parse outcome to page (`RecommendationPage`).

Three behaviours of the code worth stating:

- A reply that is valid JSON but not an array is *not* treated like a
  malformed reply: only a decode error reaches the fallback (main.py:189),
  and the card loop iterates whatever was parsed (main.py:203-204). Iterating a dict yields its keys and iterating a string
  yields its characters. Both are strings, and strings have no `get`, so a
  non-empty object or string ends the run with `AttributeError`. An empty one
  gives a page without cards. A number, boolean or null is not iterable
  (`TypeError`). An array with a non-object element also raises
  `AttributeError`. These cases are the `Crash` outcome.
- The two poster defaults are distinct. The
  diagnostic record uses the placeholder URL (main.py:192). A record without
  a `poster` key gets `html_assets/default_poster.png` (main.py:204).
- Fields are interpolated into the HTML without escaping (main.py:215-224).

## Model

| member | source | states |
|---|---|---|
| `Text.TrimStart` | main.py:149 | the result is a suffix of the input; the part cut off is all whitespace; the result does not start with whitespace |
| `Text.TrimEnd` | main.py:149 | the result is a prefix of the input; the part cut off is all whitespace; the result does not end with whitespace |
| `Text.Strip` | main.py:149 | `str.strip()` yields a result that, with whitespace added on either side, is the input, and neither end of the result is whitespace |
| `Text.StripUnique` | main.py:149 | stripping `a + r + b` gives exactly `r` whenever `a` and `b` are whitespace and `r` has non-space ends, so the contract of `Strip` determines it |
| `Text.JoinAppend` | main.py:149 | joining a concatenation of two non-empty lists is the two joins with one separator between them, so join keeps the order of the parts |
| `Text.JoinLength` | main.py:149 | a join is as long as its parts plus one separator between each pair of neighbours |
| `Text.JoinEnds` | main.py:149 | a join starts with the first part and ends with the last |
| `Text.ReplaceAbsent` | main.py:229 | `replace` leaves a string without the pattern unchanged |
| `Text.ReplaceKeepsPrefix` | main.py:229 | text before the first occurrence of the pattern is copied through unchanged |
| `Text.ReplaceOnce` | main.py:229 | if the pattern occurs exactly once, `replace` changes that occurrence and nothing else |
| `Harvest.CollectFinalTexts` | main.py:134-147 | the loop collects exactly the non-empty contents of the last step's results, in order; nothing when there is no history, no step, or no result list |
| `Harvest.HarvestedAppend` | main.py:138-141 | harvesting a concatenation of result lists is the two harvests in order |
| `Harvest.HarvestedMembers` | main.py:138-141 | a text is harvested if and only if some result carries it as non-empty extracted content |
| `Harvest.ErrorsIgnored` | main.py:142-143 | result lists that differ only in their errors harvest the same texts, so errors are never appended and never stop the loop |
| `Harvest.OnlyLastStep` | main.py:135-136 | the harvested texts do not depend on any step but the last |
| `Harvest.NothingToHarvest` | main.py:135-149 | no history, an empty history, or a last step whose result list is absent or empty gives no texts and the empty transcript, not a failure |
| `Harvest.TranscriptStripsOnlyTheEnds` | main.py:149 | when the first text does not start and the last does not end with whitespace, the transcript is the plain `"\n"`-join, so whitespace inside or between the texts is kept |
| `Records.FromObject` | main.py:204-211 | each of the eight keys keeps its value when present and gets its own default when missing |
| `Records.FromToObject` | main.py:204-211 | an object holding a movie's eight fields is read back into that same movie |
| `Records.OtherKeysIgnored` | main.py:204-211 | keys other than the eight do not affect the record |
| `Records.Reconcile` | main.py:188-200 | a parsed value is kept unchanged; on a decode error the loop gets exactly one object, the diagnostic record for the transcript |
| `Records.DiagnosticMovie` | main.py:191-211 | the diagnostic record survives defaulting unchanged: placeholder poster, transcript verbatim as Hebrew summary, `N/A` age range and reason, theater-index ticket link |
| `Cards.ReadFill` | main.py:213-226 | every interpolated field is embedded verbatim: a filled layout can be read back, given the field lengths, into the values of the keys it interpolates |
| `Cards.CardLayoutCount` | main.py:215-218 | the card interpolates `english_title` twice, as `alt` text and in the title, and every other field once |
| `Cards.CardShowsEveryField` | main.py:213-226 | reading a card back gives its movie, so the card shows all eight fields verbatim |

| `Cards.CardsOfAppend` | main.py:202-227 | the cards of two record lists in a row are the cards of the first followed by those of the second, so record order is kept |
| `Cards.BuildCards` | main.py:202-227 | the loop returns the cards of all records in order, or the exception raised by an item without `get` or by a value that cannot be iterated |
| `Cards.PageFillsPlaceholder` | main.py:229 | with a single `{{MOVIE_CARDS}}` in the template, the page is the template with the `"\n"`-joined cards in its place and all other text unchanged; no cards gives the template with the placeholder removed |
| `Pipeline.RecommendationPage` | main.py:134-229 | the composed steps give the page specified by harvesting, reconciling, card building and substitution |
| `Pipeline.MalformedReplyGivesDiagnosticCard` | main.py:188-229 | a reply that is not valid JSON still gives a page with exactly one card, the diagnostic card showing the raw transcript |
| `Pipeline.ArrayReplyRendersIffAllObjects` | main.py:202-211 | an array reply gets through the card loop if and only if every element is an object; otherwise the run stops with `AttributeError` |
| `Pipeline.ObjectsReplyGivesOneCardPerObject` | main.py:202-229 | an array of objects gives the template with the cards of the objects, one per object and in order, `"\n"`-joined in place of the placeholder |
| `Pipeline.EmptyArrayGivesEmptyGrid` | main.py:202-229 | the reply `[]` gives the template with the placeholder removed: a page with no cards, not an error |
| `Pipeline.TwoRecordsGiveTwoCards` | main.py:202-229 | two records give their two cards in order, separated by one newline |
| `Pipeline.NonArrayReplyIsNotRecovered` | main.py:189-204 | valid JSON that is not an array is kept by the reconciling step rather than replaced by the diagnostic record, and then: an empty object or string gives no cards, a non-empty one raises `AttributeError`, a number, boolean or null raises `TypeError` |

## Left out

- The browser agent (`Agent(...)`, `agent.run(max_steps=100)`, main.py:123-131). Its step and failure budgets, retry delay and vision are not modelled. Its history is an input value.
- The LLM calls (`ChatOpenAI(...)`, `invoke`, main.py:11, 151, 185) and the prompt text (main.py:152-183). These are external calls over a constant string. The `.strip()` of the reply (main.py:186) only affects what the parser sees, and the parser is not modelled.
- `json.loads` itself (main.py:189). Its outcome is an input. For each object member, the model takes the text the f-string would render for the value. For a JSON string this is the string itself. Python's `str()` of numbers, booleans, null and nested values is part of that input.
- The order of a dict's keys. Only whether the dict is empty matters, because its first key already raises.
- The exception messages and tracebacks. `Crash` only tells `AttributeError` apart from `TypeError`.
- The CSS and markup of `html_template` (main.py:27-120). The template is a parameter. The lemmas about the page assume it holds `{{MOVIE_CARDS}}` once, as line 116 does.
- `print` diagnostics, `load_dotenv`/`os.getenv` (main.py:9, 13), the file write (main.py:231-233), `webbrowser.open` (main.py:235) and `asyncio.run`. These are I/O and process plumbing.
- Text.Replace: an empty pattern is excluded. Python gives it a different meaning, but the code only replaces the non-empty constant `{{MOVIE_CARDS}}`.
- Harvest: the history object's truthiness is modelled as "absent or without steps". Any other `__bool__` the agent library might define is not modelled.
