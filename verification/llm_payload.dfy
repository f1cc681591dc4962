/** The structural check the edge function applies to the model's parsed
    completion before trusting it (`isLlmPayload`). */
module LlmPayload {
  import opened Common
  import opened Json

  /** The callback given to `every`: a non-null object whose `position` is
      a number and whose `question` is a string. */
  predicate QuestionShapeOk(q: Json) {
    if TypeOf(q) != "object" || q == JNull then false
    else TypeOfProp(Prop(q, "position")) == "number"
         && TypeOfProp(Prop(q, "question")) == "string"
  }

  /** `Array.prototype.every` with that callback, visiting the elements left
      to right and stopping at the first one that fails. */
  predicate EveryQuestion(qs: seq<Json>)
    decreases |qs|
  {
    if qs == [] then true
    else if !QuestionShapeOk(qs[0]) then false
    else EveryQuestion(qs[1..])
  }

  predicate IsLlmPayload(v: Json) {
    if TypeOf(v) != "object" || v == JNull then false
    else if !IsArray(Prop(v, "questions")) then false
    else EveryQuestion(Prop(v, "questions").value.items)
  }

  // ---------------------------------------------------------------------
  // Reference definition of an acceptable payload, stated on the datatype
  // directly rather than through `typeof` and property reads.

  predicate WellFormedQuestion(q: Json) {
    && q.JObj?
    && "position" in q.fields && q.fields["position"].JNum?
    && "question" in q.fields && q.fields["question"].JStr?
  }

  predicate WellFormedPayload(v: Json) {
    && v.JObj?
    && "questions" in v.fields && v.fields["questions"].JArr?
    && forall i :: 0 <= i < |v.fields["questions"].items| ==>
                     WellFormedQuestion(v.fields["questions"].items[i])
  }

  /** The elements of an accepted payload's `questions` array. */
  function QuestionsOf(v: Json): seq<Json>
    requires WellFormedPayload(v)
  {
    v.fields["questions"].items
  }

  lemma QuestionShapeOkIffWellFormed(q: Json)
    ensures QuestionShapeOk(q) <==> WellFormedQuestion(q)
  {
  }

  /** `every` accepts the array exactly when each element is well formed:
      a single bad element anywhere rejects the whole array. */
  lemma {:induction false} EveryQuestionIffAll(qs: seq<Json>)
    ensures EveryQuestion(qs) <==> forall i :: 0 <= i < |qs| ==> WellFormedQuestion(qs[i])
    decreases |qs|
  {
    if qs != [] {
      EveryQuestionIffAll(qs[1..]);
      QuestionShapeOkIffWellFormed(qs[0]);
      assert forall i :: 1 <= i < |qs| ==> qs[i] == qs[1..][i - 1];
    }
  }

  /** The payload is accepted iff it is an object whose `questions` is an
      array of non-null objects each with a numeric `position` and a string
      `question`. */
  lemma IsLlmPayloadIffWellFormed(v: Json)
    ensures IsLlmPayload(v) <==> WellFormedPayload(v)
  {
    if v.JObj? && "questions" in v.fields && v.fields["questions"].JArr? {
      EveryQuestionIffAll(v.fields["questions"].items);
    }
  }

  /** One element without a string `question` rejects the payload, whatever
      the other elements are. */
  lemma OneBadElementRejects(v: Json, k: int)
    requires v.JObj? && "questions" in v.fields && v.fields["questions"].JArr?
    requires 0 <= k < |v.fields["questions"].items|
    requires !WellFormedQuestion(v.fields["questions"].items[k])
    ensures !IsLlmPayload(v)
  {
    IsLlmPayloadIffWellFormed(v);
  }

  /** An empty `questions` array is accepted, and extra fields beside
      `questions` do not matter. */
  lemma EmptyArrayAccepted(extra: map<string, Json>)
    ensures IsLlmPayload(JObj(extra["questions" := JArr([])]))
  {
  }

  /** Adding or changing a field other than `position` and `question` on
      an element never changes the verdict, whichever it was: only those
      two fields are read. */
  lemma ExtraElementFieldsIgnored(v: Json, i: int, key: string, extra: Json)
    requires v.JObj? && "questions" in v.fields && v.fields["questions"].JArr?
    requires 0 <= i < |v.fields["questions"].items| && v.fields["questions"].items[i].JObj?
    requires key != "position" && key != "question"
    ensures var qs := v.fields["questions"].items;
            var q' := JObj(qs[i].fields[key := extra]);
            IsLlmPayload(JObj(v.fields["questions" := JArr(qs[i := q'])])) == IsLlmPayload(v)
  {
    var qs := v.fields["questions"].items;
    var qs' := qs[i := JObj(qs[i].fields[key := extra])];
    var w := JObj(v.fields["questions" := JArr(qs')]);
    IsLlmPayloadIffWellFormed(v);
    IsLlmPayloadIffWellFormed(w);
    assert forall j :: 0 <= j < |qs| ==> (WellFormedQuestion(qs'[j]) <==> WellFormedQuestion(qs[j]));
  }

  /** Fields of the payload other than `questions` never change the
      verdict. */
  lemma ExtraTopLevelFieldsIgnored(fields: map<string, Json>, key: string, extra: Json)
    requires key != "questions"
    ensures IsLlmPayload(JObj(fields[key := extra])) == IsLlmPayload(JObj(fields))
  {
    IsLlmPayloadIffWellFormed(JObj(fields));
    IsLlmPayloadIffWellFormed(JObj(fields[key := extra]));
  }
}
