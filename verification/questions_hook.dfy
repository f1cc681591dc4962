/** The `useQuestions` hook: the client's list of a project's questions
    with its `loading` and `error` state. Store calls are inputs: a
    snapshot of the question table for the list query, and for the insert
    either the error message or the id and default status the store gives
    the new row. */
module QuestionsHook {
  import opened Common
  import opened QuestionRows
  import opened QuestionTable

  /** What `createQuestion` sends to the store; `status` is left to the
      store's default. */
  datatype QuestionInsert = QuestionInsert(
    projectId: string,
    position: int,
    question: string,
    rationale: Option<string>,
    source: string)

  /** What the store fills in on an insert. */
  datatype StoreAssigned = StoreAssigned(id: nat, status: string)

  /** The position of a new question: the explicit one when given,
      otherwise one more than the last listed question's, or 1 for an
      empty list. */
  function NextPosition(explicit: Option<int>, questions: seq<QuestionRow>): (p: int)
    ensures explicit.Some? ==> p == explicit.value
    ensures explicit.None? && questions == [] ==> p == 1
    ensures explicit.None? && questions != [] ==> p == questions[|questions| - 1].position + 1
  {
    if explicit.Some? then explicit.value
    else (if questions == [] then 0 else questions[|questions| - 1].position) + 1
  }

  /** With no explicit position, a sorted list's next position is greater
      than every listed one, so the new question sorts last. */
  lemma NextPositionIsGreatest(questions: seq<QuestionRow>, x: QuestionRow)
    requires SortedByPosition(questions)
    requires x.position == NextPosition(None, questions)
    ensures forall i :: 0 <= i < |questions| ==> questions[i].position < NextPosition(None, questions)
    ensures SortByPosition(questions + [x]) == questions + [x]
  {
    GreatestGoesLast(questions, x);
  }

  class Hook {
    const projectId: string
    var questions: seq<QuestionRow>
    var loading: bool
    var error: Option<string>

    /** The list is always in ascending position order. */
    ghost predicate Valid()
      reads this
    {
      SortedByPosition(questions)
    }

    constructor (projectId: string)
      ensures Valid() && this.projectId == projectId
      ensures questions == [] && loading && error == None
    {
      this.projectId := projectId;
      questions := [];
      loading := true;
      error := None;
    }

    /** `refresh`: with no project nothing happens; otherwise the list
        becomes the project's rows ordered by position, or empty with the
        error message when the query fails. */
    method Refresh(store: seq<QuestionRow>, failure: Option<string>)
      requires Valid()
      modifies this
      ensures Valid()
      ensures projectId == "" ==>
                questions == old(questions) && loading == old(loading) && error == old(error)
      ensures projectId != "" && failure.Some? ==>
                questions == [] && error == failure && !loading
      ensures projectId != "" && failure.None? ==>
                questions == SortByPosition(RowsOf(store, projectId)) && error == None && !loading
    {
      if projectId == "" {
        return;
      }
      loading := true;
      error := None;
      if failure.Some? {
        error := failure;
        questions := [];
        loading := false;
        return;
      }
      SortByPositionSorts(RowsOf(store, projectId));
      questions := SortByPosition(RowsOf(store, projectId));
      loading := false;
    }

    /** `createQuestion`: throws before touching the store or the state when
        there is no project; otherwise sends the new row (`source = "user"`,
        the next position, a null rationale when none is given) and on
        success adds the created row to the list and re-sorts it, on
        failure records the error, rethrows and leaves the list as it was. */
    method CreateQuestion(question: string, rationale: Option<string>, position: Option<int>,
                          stored: Result<StoreAssigned>)
      returns (result: Result<QuestionRow>, sent: Option<QuestionInsert>)
      requires Valid()
      modifies this
      ensures Valid() && loading == old(loading)
      ensures projectId == "" ==>
                && result == Failure("projectId requerido") && sent == None
                && questions == old(questions) && error == old(error)
      ensures projectId != "" ==>
                sent == Some(QuestionInsert(projectId, NextPosition(position, old(questions)),
                                            question, rationale, "user"))
      ensures projectId != "" && stored.Failure? ==>
                && result == Failure(stored.error) && error == Some(stored.error)
                && questions == old(questions)
      ensures projectId != "" && stored.Success? ==>
                && result == Success(QuestionRow(stored.value.id, projectId,
                                                 NextPosition(position, old(questions)), question,
                                                 rationale, stored.value.status, "user"))
                && error == None
                && questions == SortByPosition(old(questions) + [result.value])
    {
      if projectId == "" {
        return Failure("projectId requerido"), None;
      }
      error := None;
      var next := NextPosition(position, questions);
      sent := Some(QuestionInsert(projectId, next, question, rationale, "user"));
      if stored.Failure? {
        error := Some(stored.error);
        return Failure(stored.error), sent;
      }
      var created := QuestionRow(stored.value.id, projectId, next, question, rationale,
                                 stored.value.status, "user");
      SortByPositionSorts(questions + [created]);
      questions := SortByPosition(questions + [created]);
      result := Success(created);
    }
  }

  /** A successful create grows the list by exactly the created row, keeps
      it sorted, and places the row after every listed row with a position
      at most its own (so after equal positions) and before every larger
      one. */
  lemma CreatedRowPlacement(before: seq<QuestionRow>, created: QuestionRow)
    requires SortedByPosition(before)
    ensures var after := SortByPosition(before + [created]);
            var k := InsertionPoint(before, created);
            && |after| == |before| + 1
            && multiset(after) == multiset(before) + multiset{created}
            && after == before[..k] + [created] + before[k..]
            && (forall i :: 0 <= i < k ==> before[i].position <= created.position)
            && (forall i :: k <= i < |before| ==> before[i].position > created.position)
  {
    SortAppended(before, created);
    InsertByPositionSorted(before, created);
    InsertByPositionAt(before, created);
  }
}
