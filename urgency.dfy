/** The symptom triage of patients/ml_integration.py: a keyword search in
    the lowercased text with two fixed answers. Scores are kept in
    hundredths (0.95 is 95, 0.2 is 20). */
module Urgency {
  import opened Base

  datatype Prediction = Prediction(urgency: string, scoreHundredths: nat)

  const Keywords: seq<string> := ["chest pain", "breathing difficulty"]

  const High: Prediction := Prediction("high", 95)
  const Low: Prediction := Prediction("low", 20)

  /** `any(k in symptom_text.lower() for k in keywords)` */
  predicate Alarming(text: string) {
    exists k :: 0 <= k < |Keywords| && Contains(Lower(text), Keywords[k])
  }

  /** `predict_urgency`: high exactly when a keyword occurs in the
      lowercased text, low otherwise. */
  function PredictUrgency(text: string): (r: Prediction)
    ensures r == High || r == Low
    ensures r.urgency == "high" <==> Contains(Lower(text), "chest pain") || Contains(Lower(text), "breathing difficulty")
    ensures r.urgency == "high" <==> r.scoreHundredths == 95
  {
    assert Keywords[0] == "chest pain" && Keywords[1] == "breathing difficulty";
    if Alarming(text) then High else Low
  }

  /** A keyword in any capitalisation, anywhere in the text, makes the
      answer high. */
  lemma KeywordAnywhere(pre: string, word: string, post: string)
    requires Lower(word) == "chest pain" || Lower(word) == "breathing difficulty"
    ensures PredictUrgency(pre + word + post) == High
  {
    LowerAppend(pre + word, post);
    LowerAppend(pre, word);
    ContainsInfix(Lower(pre), Lower(word), Lower(post));
  }

  /** Text shorter than both keywords is always low. */
  lemma ShortTextLow(text: string)
    requires |text| < 10
    ensures PredictUrgency(text) == Low
  {
    if Contains(Lower(text), "chest pain") {
      ContainsShorter(Lower(text), "chest pain");
    }
    if Contains(Lower(text), "breathing difficulty") {
      ContainsShorter(Lower(text), "breathing difficulty");
    }
  }
}
