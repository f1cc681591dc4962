/** The client-side duplicate of the edge function's payload check
    (`isResearchQuestionsPayload`). Its `every` is stated as what it means
    for a side-effect-free callback: the callback holds of every element. */
module QuestionMapper {
  import opened Common
  import opened Json
  import LlmPayload

  predicate ElementOk(q: Json) {
    if TypeOf(q) != "object" || q == JNull then false
    else TypeOfProp(Prop(q, "position")) == "number"
         && TypeOfProp(Prop(q, "question")) == "string"
  }

  predicate IsResearchQuestionsPayload(value: Json) {
    if TypeOf(value) != "object" || value == JNull then false
    else if !IsArray(Prop(value, "questions")) then false
    else var qs := Prop(value, "questions").value.items;
         forall i :: 0 <= i < |qs| ==> ElementOk(qs[i])
  }

  /** Rejected: `null` and every value that is not an object. */
  lemma RejectsNonObjects(value: Json)
    requires value.JNull? || value.JBool? || value.JNum? || value.JStr?
    ensures !IsResearchQuestionsPayload(value)
  {
  }

  /** Rejected: a missing `questions`, or one that is not an array; an array
      at the top level has no `questions` property and is rejected too. */
  lemma RejectsWithoutQuestionsArray(value: Json)
    requires !(value.JObj? && "questions" in value.fields && value.fields["questions"].JArr?)
    ensures !IsResearchQuestionsPayload(value)
  {
  }

  /** One element that is null, not an object, without a numeric `position`
      or without a string `question` rejects the whole payload; the array
      `[]` is accepted. */
  lemma AcceptsIffEveryElementWellFormed(value: Json)
    requires value.JObj? && "questions" in value.fields && value.fields["questions"].JArr?
    ensures IsResearchQuestionsPayload(value) <==>
            forall i :: 0 <= i < |value.fields["questions"].items| ==>
                          LlmPayload.WellFormedQuestion(value.fields["questions"].items[i])
  {
    var qs := value.fields["questions"].items;
    forall i | 0 <= i < |qs| ensures ElementOk(qs[i]) <==> LlmPayload.WellFormedQuestion(qs[i]) {
      LlmPayload.QuestionShapeOkIffWellFormed(qs[i]);
    }
  }

  /** The two copies of the check give the same verdict on every value. */
  lemma SameVerdictAsLlmPayload(value: Json)
    ensures IsResearchQuestionsPayload(value) == LlmPayload.IsLlmPayload(value)
  {
    LlmPayload.IsLlmPayloadIffWellFormed(value);
    if value.JObj? && "questions" in value.fields && value.fields["questions"].JArr? {
      AcceptsIffEveryElementWellFormed(value);
    }
  }
}
