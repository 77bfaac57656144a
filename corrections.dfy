/**
 * The body of `api_corrections_analysis`: three frequency maps filled in
 * one pass over the corrections, keyed by `str(title)`, by
 * `error_corrected` and by `corrective_action`. A missing field still
 * counts, under the key `"None"` (for the title) or the key `None`.
 */
module Corrections {
  import opened Wrappers
  import opened Counting
  import opened EcfrData

  /** The three dictionaries of the response, each as its items in insertion order. */
  datatype CorrectionsAnalysis = CorrectionsAnalysis(
    byTitle: seq<(string, nat)>,
    byDate: seq<(Option<string>, nat)>,
    byAction: seq<(Option<string>, nat)>)

  function TitleObservations(cs: seq<Correction>): (obs: seq<(string, nat)>)
    ensures |obs| == |cs|
    ensures forall i :: 0 <= i < |cs| ==> obs[i] == (PyStr(cs[i].title), 1)
  {
    seq(|cs|, i requires 0 <= i < |cs| => (PyStr(cs[i].title), 1))
  }

  function CorrectedOnObservations(cs: seq<Correction>): (obs: seq<(Option<string>, nat)>)
    ensures |obs| == |cs|
    ensures forall i :: 0 <= i < |cs| ==> obs[i] == (cs[i].errorCorrected, 1)
  {
    seq(|cs|, i requires 0 <= i < |cs| => (cs[i].errorCorrected, 1))
  }

  function ActionObservations(cs: seq<Correction>): (obs: seq<(Option<string>, nat)>)
    ensures |obs| == |cs|
    ensures forall i :: 0 <= i < |cs| ==> obs[i] == (cs[i].correctiveAction, 1)
  {
    seq(|cs|, i requires 0 <= i < |cs| => (cs[i].correctiveAction, 1))
  }

  /** The title numbers themselves, before `str`: what `by_title` would count without the conversion. */
  function RawTitleObservations(cs: seq<Correction>): (obs: seq<(Option<int>, nat)>)
    ensures |obs| == |cs|
    ensures forall i :: 0 <= i < |cs| ==> obs[i] == (cs[i].title, 1)
  {
    seq(|cs|, i requires 0 <= i < |cs| => (cs[i].title, 1))
  }

  /** What the three counters hold after the loop. */
  function AnalysisOf(cs: seq<Correction>): CorrectionsAnalysis {
    CorrectionsAnalysis(Tally(TitleObservations(cs)), Tally(CorrectedOnObservations(cs)), Tally(ActionObservations(cs)))
  }

  lemma CorrectionStep(cs: seq<Correction>, n: nat)
    requires n < |cs|
    ensures TitleObservations(cs)[..n + 1] == TitleObservations(cs)[..n] + [(PyStr(cs[n].title), 1)]
    ensures CorrectedOnObservations(cs)[..n + 1] == CorrectedOnObservations(cs)[..n] + [(cs[n].errorCorrected, 1)]
    ensures ActionObservations(cs)[..n + 1] == ActionObservations(cs)[..n] + [(cs[n].correctiveAction, 1)]
  {
  }

  /** The body of the loop: one correction increments one bucket of each counter. */
  method CountCorrection(byTitle: Counter<string>, byDate: Counter<Option<string>>, byAction: Counter<Option<string>>,
                         correction: Correction)
    requires byDate != byAction
    requires byTitle.Valid() && byDate.Valid() && byAction.Valid()
    modifies byTitle, byDate, byAction
    ensures byTitle.Valid() && byTitle.history == old(byTitle.history) + [(PyStr(correction.title), 1)]
    ensures byDate.Valid() && byDate.history == old(byDate.history) + [(correction.errorCorrected, 1)]
    ensures byAction.Valid() && byAction.history == old(byAction.history) + [(correction.correctiveAction, 1)]
  {
    byTitle.Add(PyStr(correction.title), 1);
    byDate.Add(correction.errorCorrected, 1);
    byAction.Add(correction.correctiveAction, 1);
  }

  /** The loop of `api_corrections_analysis`, over fresh counters. */
  method AnalyzeCorrections(cs: seq<Correction>) returns (analysis: CorrectionsAnalysis)
    ensures analysis == AnalysisOf(cs)
  {
    var byTitle := new Counter<string>();
    var byDate := new Counter<Option<string>>();
    var byAction := new Counter<Option<string>>();
    var n := 0;
    while n < |cs|
      invariant 0 <= n <= |cs|
      invariant byDate != byAction
      invariant byTitle.Valid() && byTitle.history == TitleObservations(cs)[..n]
      invariant byDate.Valid() && byDate.history == CorrectedOnObservations(cs)[..n]
      invariant byAction.Valid() && byAction.history == ActionObservations(cs)[..n]
    {
      CorrectionStep(cs, n);
      CountCorrection(byTitle, byDate, byAction, cs[n]);
      n := n + 1;
    }
    assert TitleObservations(cs)[..n] == TitleObservations(cs);
    assert CorrectedOnObservations(cs)[..n] == CorrectedOnObservations(cs);
    assert ActionObservations(cs)[..n] == ActionObservations(cs);
    ItemsAreTally(byTitle);
    ItemsAreTally(byDate);
    ItemsAreTally(byAction);
    analysis := CorrectionsAnalysis(byTitle.Items(), byDate.Items(), byAction.Items());
  }

  /** `api_corrections_analysis` with the outcome of the corrections request as input. */
  method CorrectionsEndpoint(resp: Upstream<CorrectionsPayload>) returns (r: Outcome<CorrectionsAnalysis>)
    ensures resp.Data? ==> r == Ok(AnalysisOf(CorrectionsOf(resp.body)))
    ensures !resp.Data? ==> r == ServerError(resp.reason)
  {
    match resp
    case Data(body) =>
      var analysis := AnalyzeCorrections(CorrectionsOf(body));
      return Ok(analysis);
    case Forbidden(reason) =>
      return ServerError(reason);
    case Failed(reason) =>
      return ServerError(reason);
  }

  /**
   * Whether a dictionary's keys mix `None` with strings. `jsonify` serialises
   * with sorted keys, and Python cannot order `None` against a string: the
   * sort raises TypeError.
   */
  predicate MixesNone(keys: seq<Option<string>>) {
    None in keys && exists i :: 0 <= i < |keys| && keys[i].Some?
  }

  /** The text of that TypeError (the two type names appear in the order the sort compares them). */
  const MIXED_KEYS_ERROR: string := "'<' not supported between instances of 'str' and 'NoneType'"

  /**
   * The response `api_corrections_analysis` sends, serialisation included:
   * the `jsonify` call sits inside the `try`, so maps whose keys cannot be
   * sorted end in the `except` branch, status 500.
   */
  function CorrectionsResponse(resp: Upstream<CorrectionsPayload>): (r: Outcome<CorrectionsAnalysis>)
    ensures !resp.Data? ==> r == ServerError(resp.reason)
    ensures resp.Data? && r.Ok? ==> r.value == AnalysisOf(CorrectionsOf(resp.body))
  {
    match resp
    case Data(body) =>
      var analysis := AnalysisOf(CorrectionsOf(body));
      if MixesNone(KeysOf(analysis.byDate)) || MixesNone(KeysOf(analysis.byAction)) then ServerError(MIXED_KEYS_ERROR)
      else Ok(analysis)
    case Forbidden(reason) => ServerError(reason)
    case Failed(reason) => ServerError(reason)
  }

  /** Some correction lacks the field and another has it. */
  predicate FieldMixed(values: seq<Option<string>>) {
    (exists i :: 0 <= i < |values| && values[i].None?) && (exists j :: 0 <= j < |values| && values[j].Some?)
  }

  function CorrectedOnValues(cs: seq<Correction>): seq<Option<string>> {
    seq(|cs|, i requires 0 <= i < |cs| => cs[i].errorCorrected)
  }

  function ActionValues(cs: seq<Correction>): seq<Option<string>> {
    seq(|cs|, i requires 0 <= i < |cs| => cs[i].correctiveAction)
  }

  /** The keys of a map mix `None` with strings exactly when the values counted do. */
  lemma MixesNoneIffFieldMixed(keys: seq<Option<string>>, values: seq<Option<string>>)
    requires forall d :: d in keys <==> d in values
    ensures MixesNone(keys) <==> FieldMixed(values)
  {
    if MixesNone(keys) {
      var k :| 0 <= k < |keys| && keys[k].Some?;
      assert keys[k] in values;
    }
    if FieldMixed(values) {
      var j :| 0 <= j < |values| && values[j].Some?;
      assert values[j] in keys;
    }
  }

  /**
   * As written, the endpoint answers 500 exactly when one correction has an
   * `error_corrected` and another has none, or likewise for
   * `corrective_action`, although the counting itself succeeds; on every
   * other list it answers with the analysis.
   */
  lemma MixedFieldsFail(cs: seq<Correction>)
    ensures CorrectionsResponse(Data(CorrectionsPayload(Some(cs)))) == ServerError(MIXED_KEYS_ERROR)
        <==> FieldMixed(CorrectedOnValues(cs)) || FieldMixed(ActionValues(cs))
    ensures !FieldMixed(CorrectedOnValues(cs)) && !FieldMixed(ActionValues(cs))
        ==> CorrectionsResponse(Data(CorrectionsPayload(Some(cs)))) == Ok(AnalysisOf(cs))
  {
    DateKeysMixed(cs);
    ActionKeysMixed(cs);
  }

  lemma DateKeysMixed(cs: seq<Correction>)
    ensures MixesNone(KeysOf(AnalysisOf(cs).byDate)) <==> FieldMixed(CorrectedOnValues(cs))
  {
    var obs := CorrectedOnObservations(cs);
    TallyKeys(obs);
    assert KeysOf(obs) == CorrectedOnValues(cs);
    MixesNoneIffFieldMixed(KeysOf(Tally(obs)), CorrectedOnValues(cs));
  }

  lemma ActionKeysMixed(cs: seq<Correction>)
    ensures MixesNone(KeysOf(AnalysisOf(cs).byAction)) <==> FieldMixed(ActionValues(cs))
  {
    var obs := ActionObservations(cs);
    TallyKeys(obs);
    assert KeysOf(obs) == ActionValues(cs);
    MixesNoneIffFieldMixed(KeysOf(Tally(obs)), ActionValues(cs));
  }

  /** One correction without `error_corrected` and one with it: a 500 instead of the counts. */
  lemma MissingDateFails(c1: Correction, c2: Correction)
    requires c1.errorCorrected.None? && c2.errorCorrected.Some?
    ensures CorrectionsResponse(Data(CorrectionsPayload(Some([c1, c2])))) == ServerError(MIXED_KEYS_ERROR)
  {
    MixedFieldsFail([c1, c2]);
    assert CorrectedOnValues([c1, c2])[0].None? && CorrectedOnValues([c1, c2])[1].Some?;
  }

  /** Every correction is counted exactly once in each of the three maps. */
  lemma CorrectionsTotals(cs: seq<Correction>)
    ensures Total(AnalysisOf(cs).byTitle) == |cs|
    ensures Total(AnalysisOf(cs).byDate) == |cs|
    ensures Total(AnalysisOf(cs).byAction) == |cs|
  {
    UnitTallyTotal(TitleObservations(cs));
    UnitTallyTotal(CorrectedOnObservations(cs));
    UnitTallyTotal(ActionObservations(cs));
  }

  /**
   * Keying by `str(title)` merges nothing: the count under `str(t)` is the
   * number of corrections whose title is `t`, since distinct titles print
   * differently (and a missing title prints as "None", which no number does).
   */
  lemma {:induction false} TitleKeysMergeNothing(cs: seq<Correction>, t: Option<int>)
    ensures SumFor(TitleObservations(cs), PyStr(t)) == SumFor(RawTitleObservations(cs), t)
  {
    if cs != [] {
      var front := cs[..|cs| - 1];
      var last := cs[|cs| - 1];
      assert TitleObservations(cs)[..|cs| - 1] == TitleObservations(front);
      assert RawTitleObservations(cs)[..|cs| - 1] == RawTitleObservations(front);
      TitleKeysMergeNothing(front, t);
      if PyStr(last.title) == PyStr(t) {
        PyStrInjective(last.title, t);
      }
    }
  }

  /** The keys of each map are exactly the values seen in that field, each listed once. */
  lemma ByTitleKeys(cs: seq<Correction>)
    ensures Distinct(KeysOf(AnalysisOf(cs).byTitle))
    ensures forall k :: k in KeysOf(AnalysisOf(cs).byTitle) <==> exists i :: 0 <= i < |cs| && PyStr(cs[i].title) == k
  {
    TallyKeys(TitleObservations(cs));
    KeysOfUnits(TitleObservations(cs));
  }

  lemma ByDateKeys(cs: seq<Correction>)
    ensures Distinct(KeysOf(AnalysisOf(cs).byDate))
    ensures forall d :: d in KeysOf(AnalysisOf(cs).byDate) <==> exists i :: 0 <= i < |cs| && cs[i].errorCorrected == d
  {
    TallyKeys(CorrectedOnObservations(cs));
    KeysOfUnits(CorrectedOnObservations(cs));
  }

  lemma ByActionKeys(cs: seq<Correction>)
    ensures Distinct(KeysOf(AnalysisOf(cs).byAction))
    ensures forall a :: a in KeysOf(AnalysisOf(cs).byAction) <==> exists i :: 0 <= i < |cs| && cs[i].correctiveAction == a
  {
    TallyKeys(ActionObservations(cs));
    KeysOfUnits(ActionObservations(cs));
  }

  lemma KeysOfUnits<K>(obs: seq<(K, nat)>)
    ensures forall k :: k in KeysOf(obs) <==> exists i :: 0 <= i < |obs| && obs[i].0 == k
  {
    forall k ensures k in KeysOf(obs) <==> exists i :: 0 <= i < |obs| && obs[i].0 == k {
      if k in KeysOf(obs) {
        var i :| 0 <= i < |obs| && KeysOf(obs)[i] == k;
        assert obs[i].0 == k;
      }
    }
  }
}
