/** The `useAnswers` hook: the client's answers to a project's questions,
    an index of them by question, and the `loading`/`error` state. Store
    calls are inputs: snapshots of the question and answer tables (or the
    error message of the query), and for the upsert either the error
    message or the id and owner the store gives the saved row. */
module AnswersHook {
  import opened Common
  import opened QuestionRows
  import opened QuestionTable

  datatype AnswerRow = AnswerRow(
    id: nat,
    questionId: nat,
    userId: string,
    answer: string,
    status: string)

  /** What `upsertAnswer` sends: the row, and the columns whose clash turns
      the insert into an update. */
  datatype AnswerUpsert = AnswerUpsert(
    questionId: nat,
    answer: string,
    status: string,
    onConflict: string)

  const SavedStatus := "saved"
  const ConflictColumns := "question_id,user_id"

  /** What the store fills in on an upsert. */
  datatype StoreAssigned = StoreAssigned(id: nat, userId: string)

  /** The ids of a sequence of question rows. */
  function IdsOf(rows: seq<QuestionRow>): (ids: set<nat>)
    ensures forall q :: q in rows ==> q.id in ids
    ensures forall id :: id in ids ==> exists q :: q in rows && q.id == id
  {
    set q | q in rows :: q.id
  }

  /** The answers whose question is one of `ids`, in table order (the
      `in("question_id", ...)` filter). */
  function AnswersFor(rows: seq<AnswerRow>, ids: set<nat>): (r: seq<AnswerRow>)
    ensures |r| <= |rows|
    ensures forall a :: a in r <==> a in rows && a.questionId in ids
  {
    if rows == [] then []
    else
      var rest := AnswersFor(rows[..|rows| - 1], ids);
      var last := rows[|rows| - 1];
      assert rows == rows[..|rows| - 1] + [last];
      if last.questionId in ids then rest + [last] else rest
  }

  /** The answers whose question is not `questionId`, in order. */
  function Without(rows: seq<AnswerRow>, questionId: nat): (r: seq<AnswerRow>)
    ensures |r| <= |rows|
    ensures forall a :: a in r <==> a in rows && a.questionId != questionId
  {
    if rows == [] then []
    else
      var rest := Without(rows[..|rows| - 1], questionId);
      var last := rows[|rows| - 1];
      assert rows == rows[..|rows| - 1] + [last];
      if last.questionId != questionId then rest + [last] else rest
  }

  /** The indices of the answers to questions other than `questionId`, in
      ascending order. */
  function KeptIndices(rows: seq<AnswerRow>, questionId: nat): (ix: seq<nat>)
    ensures forall k :: 0 <= k < |ix| ==> ix[k] < |rows| && rows[ix[k]].questionId != questionId
    ensures forall k, l :: 0 <= k < l < |ix| ==> ix[k] < ix[l]
    ensures forall i :: 0 <= i < |rows| && rows[i].questionId != questionId ==> i in ix
  {
    if rows == [] then []
    else
      var init := rows[..|rows| - 1];
      var rest := KeptIndices(init, questionId);
      assert forall k :: 0 <= k < |rest| ==> init[rest[k]] == rows[rest[k]];
      if rows[|rows| - 1].questionId != questionId then rest + [|rows| - 1] else rest
  }

  /** `Without` deletes exactly the answers to `questionId`: its k-th
      element is the k-th answer to another question, so the kept answers
      appear once each and in their original order. */
  lemma {:induction false} WithoutKeepsOrder(rows: seq<AnswerRow>, questionId: nat)
    ensures |Without(rows, questionId)| == |KeptIndices(rows, questionId)|
    ensures forall k :: 0 <= k < |Without(rows, questionId)| ==>
              Without(rows, questionId)[k] == rows[KeptIndices(rows, questionId)[k]]
    decreases |rows|
  {
    if rows != [] {
      var init, last := rows[..|rows| - 1], rows[|rows| - 1];
      WithoutKeepsOrder(init, questionId);
      var w, rest := Without(init, questionId), KeptIndices(init, questionId);
      var ix := KeptIndices(rows, questionId);
      if last.questionId != questionId {
        assert Without(rows, questionId) == w + [last];
        assert ix == rest + [|rows| - 1];
      } else {
        assert Without(rows, questionId) == w;
        assert ix == rest;
      }
      forall k | 0 <= k < |w| ensures w[k] == rows[ix[k]] {
        assert ix[k] == rest[k] && init[rest[k]] == rows[rest[k]];
      }
    }
  }

  /** The index built by `answersByQuestionId`: each question id maps to the
      last answer listed for it. */
  function IndexByQuestion(rows: seq<AnswerRow>): map<nat, AnswerRow>
  {
    if rows == [] then map[]
    else
      var last := rows[|rows| - 1];
      IndexByQuestion(rows[..|rows| - 1])[last.questionId := last]
  }

  /** The index has a key for exactly the questions that have an answer,
      and each key holds one of that question's answers. */
  lemma {:induction false} IndexKeys(rows: seq<AnswerRow>)
    ensures IndexByQuestion(rows).Keys == set a | a in rows :: a.questionId
    ensures forall q :: q in IndexByQuestion(rows) ==>
              IndexByQuestion(rows)[q] in rows && IndexByQuestion(rows)[q].questionId == q
    decreases |rows|
  {
    if rows != [] {
      var init := rows[..|rows| - 1];
      IndexKeys(init);
      assert rows == init + [rows[|rows| - 1]];
    }
  }

  /** An answer that no later answer shares a question with is the one the
      index holds for its question. */
  lemma {:induction false} IndexHoldsLast(rows: seq<AnswerRow>, i: nat)
    requires i < |rows|
    requires forall j :: i < j < |rows| ==> rows[j].questionId != rows[i].questionId
    ensures rows[i].questionId in IndexByQuestion(rows)
    ensures IndexByQuestion(rows)[rows[i].questionId] == rows[i]
    decreases |rows|
  {
    if i < |rows| - 1 {
      var init := rows[..|rows| - 1];
      assert init[i] == rows[i];
      forall j | i < j < |init|
        ensures init[j].questionId != init[i].questionId
      {
        assert init[j] == rows[j];
      }
      IndexHoldsLast(init, i);
    }
  }

  /** Updating one key and removing another commute. */
  lemma UpdateThenRemove(m: map<nat, AnswerRow>, k: nat, v: AnswerRow, removed: nat)
    requires k != removed
    ensures (m - {removed})[k := v] == m[k := v] - {removed}
  {
    var left := (m - {removed})[k := v];
    var right := m[k := v] - {removed};
    assert left.Keys == right.Keys;
    forall x | x in left
      ensures left[x] == right[x]
    {
    }
  }

  /** Dropping a question's answers drops exactly that key from the index. */
  lemma {:induction false} IndexWithout(rows: seq<AnswerRow>, questionId: nat)
    ensures IndexByQuestion(Without(rows, questionId)) == IndexByQuestion(rows) - {questionId}
    decreases |rows|
  {
    if rows != [] {
      var init := rows[..|rows| - 1];
      var last := rows[|rows| - 1];
      var before := IndexByQuestion(init);
      assert IndexByQuestion(rows) == before[last.questionId := last];
      IndexWithout(init, questionId);
      var w := Without(init, questionId);
      if last.questionId != questionId {
        assert Without(rows, questionId) == w + [last];
        assert (w + [last])[..|w + [last]| - 1] == w;
        assert IndexByQuestion(w + [last]) == (before - {questionId})[last.questionId := last];
        UpdateThenRemove(before, last.questionId, last, questionId);
      } else {
        assert Without(rows, questionId) == w;
        assert before - {questionId} == before[last.questionId := last] - {questionId};
      }
    }
  }

  /** Upserting an answer replaces the index entry of its question and
      leaves every other entry as it was. */
  lemma IndexAfterUpsert(rows: seq<AnswerRow>, updated: AnswerRow)
    ensures IndexByQuestion(Without(rows, updated.questionId) + [updated])
         == IndexByQuestion(rows)[updated.questionId := updated]
  {
    var w := Without(rows, updated.questionId);
    assert (w + [updated])[..|w + [updated]| - 1] == w;
    IndexWithout(rows, updated.questionId);
  }

  /** After an upsert the list holds exactly one answer to its question, the
      last one. */
  lemma UpsertLeavesOne(rows: seq<AnswerRow>, updated: AnswerRow)
    ensures var after := Without(rows, updated.questionId) + [updated];
            && after[|after| - 1] == updated
            && forall i :: 0 <= i < |after| - 1 ==> after[i].questionId != updated.questionId
  {
    var w := Without(rows, updated.questionId);
    forall i | 0 <= i < |w|
      ensures w[i].questionId != updated.questionId
    {
      assert w[i] in w;
    }
  }

  class Hook {
    const projectId: string
    var answers: seq<AnswerRow>
    var loading: bool
    var error: Option<string>

    constructor (projectId: string)
      ensures this.projectId == projectId
      ensures answers == [] && loading && error == None
    {
      this.projectId := projectId;
      answers := [];
      loading := true;
      error := None;
    }

    /** `answersByQuestionId`, the memoised index over the current list. */
    method AnswersByQuestionId() returns (m: map<nat, AnswerRow>)
      ensures m == IndexByQuestion(answers)
    {
      m := map[];
      for i := 0 to |answers|
        invariant m == IndexByQuestion(answers[..i])
      {
        assert answers[..i + 1][..i] == answers[..i];
        m := m[answers[i].questionId := answers[i]];
      }
      assert answers[..|answers|] == answers;
    }

    /** `refresh`: with no project nothing happens. Otherwise it lists the
        project's question ids; a failing list empties the answers and
        records the error; no questions empties them without a second
        query; otherwise it loads the answers to those questions, or
        empties them and records the error when that query fails.
        `queried` tells whether the answer query was sent. */
    method Refresh(questionTable: Result<seq<QuestionRow>>, answerTable: Result<seq<AnswerRow>>)
      returns (queried: bool)
      modifies this
      ensures projectId == "" ==>
                !queried && answers == old(answers) && loading == old(loading) && error == old(error)
      ensures projectId != "" ==> !loading
      ensures projectId != "" && questionTable.Failure? ==>
                !queried && answers == [] && error == Some(questionTable.error)
      ensures projectId != "" && questionTable.Success? ==>
                (queried <==> RowsOf(questionTable.value, projectId) != [])
      ensures projectId != "" && questionTable.Success? && !queried ==>
                answers == [] && error == None
      ensures queried && answerTable.Failure? ==>
                answers == [] && error == Some(answerTable.error)
      ensures queried && answerTable.Success? ==>
                && answers == AnswersFor(answerTable.value, IdsOf(RowsOf(questionTable.value, projectId)))
                && error == None
    {
      queried := false;
      if projectId == "" {
        return;
      }
      loading := true;
      error := None;
      if questionTable.Failure? {
        error := Some(questionTable.error);
        answers := [];
        loading := false;
        return;
      }
      var questions := RowsOf(questionTable.value, projectId);
      if questions == [] {
        answers := [];
        loading := false;
        return;
      }
      queried := true;
      if answerTable.Failure? {
        error := Some(answerTable.error);
        answers := [];
        loading := false;
        return;
      }
      answers := AnswersFor(answerTable.value, IdsOf(questions));
      loading := false;
    }

    /** `upsertAnswer`: sends the answer with status "saved", to be merged
        on (question, user); on failure records the error, rethrows and
        leaves the list as it was; on success drops the previous answers to
        that question and appends the saved one. */
    method UpsertAnswer(questionId: nat, answer: string, stored: Result<StoreAssigned>)
      returns (result: Result<AnswerRow>, sent: AnswerUpsert)
      modifies this
      ensures sent == AnswerUpsert(questionId, answer, SavedStatus, ConflictColumns)
      ensures loading == old(loading)
      ensures stored.Failure? ==>
                result == Failure(stored.error) && error == Some(stored.error)
                && answers == old(answers)
      ensures stored.Success? ==>
                && result == Success(AnswerRow(stored.value.id, questionId, stored.value.userId,
                                               answer, SavedStatus))
                && error == None
                && answers == Without(old(answers), questionId) + [result.value]
    {
      error := None;
      sent := AnswerUpsert(questionId, answer, SavedStatus, ConflictColumns);
      if stored.Failure? {
        error := Some(stored.error);
        return Failure(stored.error), sent;
      }
      var updated := AnswerRow(stored.value.id, questionId, stored.value.userId, answer, SavedStatus);
      answers := Without(answers, questionId) + [updated];
      result := Success(updated);
    }
  }

  /** Every answer a successful refresh loads answers one of the project's
      questions. */
  lemma LoadedAnswersBelongToProject(questionTable: seq<QuestionRow>, answerTable: seq<AnswerRow>,
                                     projectId: string, a: AnswerRow)
    requires a in AnswersFor(answerTable, IdsOf(RowsOf(questionTable, projectId)))
    ensures a in answerTable
    ensures exists q :: q in questionTable && q.projectId == projectId && q.id == a.questionId
  {
    var q :| q in RowsOf(questionTable, projectId) && q.id == a.questionId;
    assert q in questionTable && q.projectId == projectId;
  }
}
