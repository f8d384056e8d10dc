/** The scoring join of evaluation/eval_acc_f1.py (`evaluate_vqa`): every
    prediction is looked up in the ground truth by `question_id`, scored with
    the accuracy scorer and with token F1, annotated with the gold answer and
    question type, and the two scores are averaged. */
module EvalVqa {
  import opened Records
  import opened Normalize
  import opened F1

  /** `eval_tool.evaluate(prediction, [gold])`: the accuracy scorer, whose code
      is not part of this model; nothing is assumed about its values. */
  type Scorer = (Json, seq<string>) -> real

  /** Python's `str()` of a JSON value that is not a string. */
  type Show = Json -> string

  /** Python's truth value of a JSON value: `not v` holds. */
  predicate Falsy(v: Json) {
    v == Null || v == Bool(false) || v == Num(0.0) || v == Str("") || v == Arr([]) || v == Obj(map[])
  }

  /** `get_tokens` accepts a prediction text that is a string or is falsy;
      any other value makes `lower()` fail. */
  predicate TextOk(v: Json) {
    v.Str? || Falsy(v)
  }

  /** `get_tokens(v)` for a JSON value. */
  function TextTokens(v: Json): seq<string>
    requires TextOk(v)
  {
    if Falsy(v) then [] else GetTokens(v.s)
  }

  /** The `if not s` branch agrees with `get_tokens` on strings: a string
      prediction is tokenised as such (the empty string included), any other
      accepted value gives no tokens, and every token is well formed. */
  lemma TextTokensOfString(v: Json)
    requires TextOk(v)
    ensures v.Str? ==> TextTokens(v) == GetTokens(v.s)
    ensures !v.Str? ==> TextTokens(v) == []
    ensures forall t :: t in TextTokens(v) ==> IsToken(t) && !IsArticle(t)
  {
    if Falsy(v) && v.Str? {
      assert v.s == "";
    }
    if !Falsy(v) {
      TokensWellFormed(v.s);
    }
  }

  /** `normalize_text(v)`: a non-string goes through `str()` first. */
  function NormalizeValue(v: Json, show: Show): string {
    NormalizeText(if v.Str? then v.s else show(v))
  }

  /** Each ground-truth entry has `question_id`, `answer` and `type`. */
  predicate GroundTruthOk(gt: seq<Record>) {
    Keyed(gt) && AllHave(gt, "answer") && AllHave(gt, "type")
  }

  /** Each prediction has a hashable `question_id` (the dictionary lookup
      needs one) and a `text` that `get_tokens` accepts. */
  predicate PredictionOk(entry: Record) {
    "question_id" in entry && IsKey(entry["question_id"]) && "text" in entry && TextOk(entry["text"])
  }

  predicate PredictionsOk(preds: seq<Record>) {
    forall i :: 0 <= i < |preds| ==> PredictionOk(preds[i])
  }

  /** `a_data`: question id to normalised gold answer. */
  function GoldAnswers(gt: seq<Record>, show: Show): map<Json, string>
    requires GroundTruthOk(gt)
  {
    var answers := Project(gt, "answer");
    map k | k in answers :: NormalizeValue(answers[k], show)
  }

  /** `a_data_type`: question id to question type. */
  function GoldTypes(gt: seq<Record>): map<Json, Json>
    requires GroundTruthOk(gt)
  {
    Project(gt, "type")
  }

  /** The body of the loop over predictions: look up the gold answer and the
      type (both `""` for an unknown id), score, and set the four fields. */
  function Scored(entry: Record, answers: map<Json, string>, types: map<Json, Json>, vqa: Scorer): Record
    requires PredictionOk(entry)
  {
    var qid := entry["question_id"];
    var gold := if qid in answers then answers[qid] else "";
    var typ := if qid in types then types[qid] else Str("");
    entry["score" := Num(vqa(entry["text"], [gold]))]
         ["f1_score" := Num(TokenF1(TextTokens(entry["text"]), GetTokens(gold)))]
         ["gt_answer" := Str(gold)]
         ["type" := typ]
  }

  /** What a scored prediction holds: its own fields, except that `score`,
      `f1_score`, `gt_answer` and `type` are set; the gold answer and type
      are `""` for an id with no entry; the F1 score compares the prediction
      with the gold answer and lies in [0, 1]. */
  lemma ScoredFields(entry: Record, answers: map<Json, string>, types: map<Json, Json>, vqa: Scorer)
    requires PredictionOk(entry)
    ensures var r := Scored(entry, answers, types, vqa);
            var qid := entry["question_id"];
            && r.Keys == entry.Keys + {"score", "f1_score", "gt_answer", "type"}
            && (forall k :: k in entry && k !in {"score", "f1_score", "gt_answer", "type"} ==> r[k] == entry[k])
            && r["gt_answer"] == Str(if qid in answers then answers[qid] else "")
            && r["type"] == (if qid in types then types[qid] else Str(""))
            && r["score"] == Num(vqa(entry["text"], [r["gt_answer"].s]))
            && r["f1_score"] == Num(TokenF1(TextTokens(entry["text"]), GetTokens(r["gt_answer"].s)))
            && 0.0 <= r["f1_score"].n <= 1.0
  {
    var qid := entry["question_id"];
    var gold := if qid in answers then answers[qid] else "";
    InUnitRange(TextTokens(entry["text"]), GetTokens(gold));
  }

  /** What the running sums need of a scored prediction. */
  lemma ScoredNumbers(entry: Record, answers: map<Json, string>, types: map<Json, Json>, vqa: Scorer)
    requires PredictionOk(entry)
    ensures var r := Scored(entry, answers, types, vqa);
            && "score" in r && r["score"].Num?
            && "f1_score" in r && r["f1_score"].Num? && 0.0 <= r["f1_score"].n <= 1.0
  {
    ScoredFields(entry, answers, types, vqa);
  }

  /** The gold answer and type of an id are those of the last ground-truth
      entry with that id, and an id with no entry has neither. */
  lemma GoldLookup(gt: seq<Record>, show: Show)
    requires GroundTruthOk(gt)
    ensures forall k :: k in GoldAnswers(gt, show) <==> HasId(gt, k)
    ensures forall k :: k in GoldTypes(gt) <==> HasId(gt, k)
    ensures forall k :: k in IndexById(gt) ==>
              && "answer" in IndexById(gt)[k] && "type" in IndexById(gt)[k]
              && k in GoldAnswers(gt, show) && k in GoldTypes(gt)
              && GoldAnswers(gt, show)[k] == NormalizeValue(IndexById(gt)[k]["answer"], show)
              && GoldTypes(gt)[k] == IndexById(gt)[k]["type"]
  {
    IndexByIdKeys(gt);
    ProjectIsIndex(gt, "answer");
    ProjectIsIndex(gt, "type");
  }

  /** Every prediction scored, in order. */
  function ScoredAll(preds: seq<Record>, answers: map<Json, string>, types: map<Json, Json>, vqa: Scorer): seq<Record>
    requires PredictionsOk(preds)
  {
    seq(|preds|, i requires 0 <= i < |preds| => Scored(preds[i], answers, types, vqa))
  }

  /** Scoring one more prediction extends the scored prefix by one record. */
  lemma ScoredAllStep(preds: seq<Record>, n: nat, answers: map<Json, string>, types: map<Json, Json>, vqa: Scorer)
    requires PredictionsOk(preds) && n < |preds|
    ensures ScoredAll(preds, answers, types, vqa)[..n + 1]
            == ScoredAll(preds, answers, types, vqa)[..n] + [Scored(preds[n], answers, types, vqa)]
  {
  }

  /** The loop of `evaluate_vqa`: scores every prediction in order and keeps
      the two running totals. */
  method ScoreEach(preds: seq<Record>, answers: map<Json, string>, types: map<Json, Json>, vqa: Scorer)
    returns (updated: seq<Record>, totalScore: real, totalF1: real)
    requires PredictionsOk(preds)
    ensures updated == ScoredAll(preds, answers, types, vqa)
    ensures NumFields(updated, "score") && UnitFields(updated, "f1_score")
    ensures totalScore == Sum(updated, "score") && totalF1 == Sum(updated, "f1_score")
  {
    totalScore, totalF1 := 0.0, 0.0;
    var numEntries := 0;
    updated := [];
    ghost var spec := ScoredAll(preds, answers, types, vqa);
    while numEntries < |preds|
      invariant 0 <= numEntries <= |preds| && updated == spec[..numEntries]
      invariant NumFields(updated, "score") && UnitFields(updated, "f1_score")
      invariant totalScore == Sum(updated, "score") && totalF1 == Sum(updated, "f1_score")
    {
      var entry := preds[numEntries];
      var scoredEntry := Scored(entry, answers, types, vqa);
      ScoredNumbers(entry, answers, types, vqa);
      SumSnoc(updated, scoredEntry, "score");
      SumSnoc(updated, scoredEntry, "f1_score");
      totalScore := totalScore + scoredEntry["score"].n;
      totalF1 := totalF1 + scoredEntry["f1_score"].n;
      ScoredAllStep(preds, numEntries, answers, types, vqa);
      updated := updated + [scoredEntry];
      numEntries := numEntries + 1;
    }
    assert updated == spec;
  }

  /** `evaluate_vqa` after the files are read: returns the annotated
      predictions and the two average scores. */
  method EvaluateVqa(gt: seq<Record>, preds: seq<Record>, vqa: Scorer, show: Show)
    returns (updated: seq<Record>, avgScore: real, avgF1: real)
    requires GroundTruthOk(gt) && PredictionsOk(preds)
    ensures |updated| == |preds|
    ensures forall i :: 0 <= i < |preds| ==>
              updated[i] == Scored(preds[i], GoldAnswers(gt, show), GoldTypes(gt), vqa)
    ensures NumFields(updated, "score") && UnitFields(updated, "f1_score")
    ensures avgScore == Mean(updated, "score") && avgF1 == Mean(updated, "f1_score")
    ensures preds == [] ==> avgScore == 0.0 && avgF1 == 0.0
    ensures 0.0 <= avgF1 <= 1.0
  {
    var answers := GoldAnswers(gt, show);
    var types := GoldTypes(gt);
    var totalScore, totalF1;
    updated, totalScore, totalF1 := ScoreEach(preds, answers, types, vqa);
    var numEntries := |updated|;
    avgScore := if numEntries > 0 then totalScore / numEntries as real else 0.0;
    avgF1 := if numEntries > 0 then totalF1 / numEntries as real else 0.0;
    MeanUnitBounds(updated, "f1_score");
  }
}
