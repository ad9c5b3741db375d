/** Harvesting the agent's raw output (main.py:134-149): the texts extracted
    in the last step of the agent's history, joined by newlines and stripped. */
module Harvest {
  import opened Wrappers
  import opened Text

  /** One result of an agent action: the text it extracted and the error it
      reported, each possibly absent (`None` in Python). */
  datatype ActionResult = ActionResult(extractedContent: Option<string>, error: Option<string>)

  /** One step of the agent's run; `result` may be absent or empty. */
  datatype Step = Step(result: Option<seq<ActionResult>>)

  /** What the agent run hands back: no history object at all (`None`), or its
      steps in the order they ran. */
  type History = Option<seq<Step>>

  /** `if r.extracted_content:` holds: the content is present and non-empty. */
  predicate Contributes(r: ActionResult) {
    r.extractedContent.Some? && r.extractedContent.value != []
  }

  /** The contents of the contributing results, in the order of `results`. */
  function Harvested(results: seq<ActionResult>): seq<string>
    decreases |results|
  {
    if results == [] then []
    else
      var last := results[|results| - 1];
      Harvested(results[..|results| - 1]) + (if Contributes(last) then [last.extractedContent.value] else [])
  }

  /** The result list of the history's last step; empty when there is no
      history, no step, or the last step's result list is absent. */
  function FinalResults(history: History): seq<ActionResult> {
    if history.None? || history.value == [] then []
    else
      var finalStep := history.value[|history.value| - 1];
      if finalStep.result.None? then [] else finalStep.result.value
  }

  /** The texts the harvesting loop collects into `final_texts`. */
  function FinalTexts(history: History): seq<string> {
    Harvested(FinalResults(history))
  }

  /** The harvesting loop of main.py:134-147. */
  method CollectFinalTexts(history: History) returns (finalTexts: seq<string>)
    ensures finalTexts == FinalTexts(history)
  {
    finalTexts := [];
    if history.Some? && history.value != [] {
      var finalStep := history.value[|history.value| - 1];
      if finalStep.result.Some? && finalStep.result.value != [] {
        var results := finalStep.result.value;
        for i := 0 to |results|
          invariant finalTexts == Harvested(results[..i])
        {
          var r := results[i];
          assert results[..i + 1][..i] == results[..i];
          if r.extractedContent.Some? && r.extractedContent.value != [] {
            finalTexts := finalTexts + [r.extractedContent.value];
          }
          // A reported error is only printed: it neither stops the loop nor
          // adds to the texts.
        }
        assert results[..|results|] == results;
      }
    }
  }

  /** `"\n".join(final_texts).strip()`: the raw transcript. */
  function Transcript(texts: seq<string>): string {
    Strip(Join("\n", texts))
  }

  /** Harvesting a concatenation harvests each half and keeps them in order. */
  lemma {:induction false} HarvestedAppend(a: seq<ActionResult>, b: seq<ActionResult>)
    ensures Harvested(a + b) == Harvested(a) + Harvested(b)
    decreases |b|
  {
    if b == [] {
      assert a + b == a;
    } else {
      var ab := a + b;
      assert ab[..|ab| - 1] == a + b[..|b| - 1];
      assert ab[|ab| - 1] == b[|b| - 1];
      HarvestedAppend(a, b[..|b| - 1]);
    }
  }

  /** A text is harvested exactly when some result carries it as its
      non-empty extracted content. */
  lemma {:induction false} HarvestedMembers(results: seq<ActionResult>, x: string)
    ensures x in Harvested(results) <==>
            exists i :: 0 <= i < |results| && Contributes(results[i]) && results[i].extractedContent.value == x
    decreases |results|
  {
    if results != [] {
      var n := |results| - 1;
      HarvestedMembers(results[..n], x);
      if x in Harvested(results) && x !in Harvested(results[..n]) {
        assert Contributes(results[n]) && results[n].extractedContent.value == x;
      }
      if exists i :: 0 <= i < |results| && Contributes(results[i]) && results[i].extractedContent.value == x {
        var i :| 0 <= i < |results| && Contributes(results[i]) && results[i].extractedContent.value == x;
        if i < n {
          assert results[..n][i] == results[i];
        }
      }
    }
  }

  /** Errors play no part: two result lists with the same extracted contents
      harvest the same texts, whatever errors they report. */
  lemma {:induction false} ErrorsIgnored(rs1: seq<ActionResult>, rs2: seq<ActionResult>)
    requires |rs1| == |rs2|
    requires forall i :: 0 <= i < |rs1| ==> rs1[i].extractedContent == rs2[i].extractedContent
    ensures Harvested(rs1) == Harvested(rs2)
    decreases |rs1|
  {
    if rs1 != [] {
      ErrorsIgnored(rs1[..|rs1| - 1], rs2[..|rs2| - 1]);
    }
  }

  /** Only the last step counts: replacing every earlier step changes nothing. */
  lemma OnlyLastStep(earlier1: seq<Step>, earlier2: seq<Step>, last: Step)
    ensures FinalTexts(Some(earlier1 + [last])) == FinalTexts(Some(earlier2 + [last]))
    ensures FinalTexts(Some(earlier1 + [last])) == FinalTexts(Some([last]))
  {
  }

  /** No history, no step, or a last step without results: no texts and an
      empty transcript, not a failure. */
  lemma NothingToHarvest(history: History)
    requires history.None? || history.value == [] || history.value[|history.value| - 1].result.None?
             || history.value[|history.value| - 1].result == Some([])
    ensures FinalTexts(history) == [] && Transcript(FinalTexts(history)) == []
  {
  }

  /** Stripping applies to the joined string only: when the first text does
      not start and the last does not end with whitespace, the transcript is
      the plain join, whitespace inside and between the texts included. */
  lemma TranscriptStripsOnlyTheEnds(texts: seq<string>)
    requires texts != [] && texts[0] != [] && texts[|texts| - 1] != []
    requires !IsSpace(texts[0][0]) && !IsSpace(texts[|texts| - 1][|texts[|texts| - 1]| - 1])
    ensures Transcript(texts) == Join("\n", texts)
  {
    var j := Join("\n", texts);
    JoinEnds("\n", texts);
    assert j[0] == j[..|texts[0]|][0];
    var lastText := texts[|texts| - 1];
    assert j[|j| - 1] == j[|j| - |lastText|..][|lastText| - 1];
    assert [] + j + [] == j;
    StripUnique([], j, []);
  }
}
