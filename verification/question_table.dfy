/** The `research_questions` table as the edge function and the hooks use
    it: a sequence of rows, a delete by project and a multi-row insert.
    Store failures are inputs: the caller passes the error message the
    store would return, or `None` when the call succeeds. */
module QuestionTable {
  import opened Common
  import opened QuestionRows

  /** A row to insert, before the store assigns its id. */
  datatype QuestionDraft = QuestionDraft(
    projectId: string,
    position: int,
    question: string,
    rationale: Option<string>,
    status: string,
    source: string)

  /** `.eq("project_id", pid)` on a list of rows, keeping their order. */
  function RowsOf(rows: seq<QuestionRow>, pid: string): (r: seq<QuestionRow>)
    ensures forall x :: x in r <==> x in rows && x.projectId == pid
    ensures |r| <= |rows|
    decreases |rows|
  {
    if rows == [] then []
    else RowsOf(rows[..|rows| - 1], pid)
         + (if rows[|rows| - 1].projectId == pid then [rows[|rows| - 1]] else [])
  }

  /** The rows that remain after `.delete().eq("project_id", pid)`. */
  function WithoutProject(rows: seq<QuestionRow>, pid: string): (r: seq<QuestionRow>)
    ensures forall x :: x in r <==> x in rows && x.projectId != pid
    ensures |r| <= |rows|
    decreases |rows|
  {
    if rows == [] then []
    else WithoutProject(rows[..|rows| - 1], pid)
         + (if rows[|rows| - 1].projectId != pid then [rows[|rows| - 1]] else [])
  }

  lemma {:induction false} RowsOfAppend(a: seq<QuestionRow>, b: seq<QuestionRow>, pid: string)
    ensures RowsOf(a + b, pid) == RowsOf(a, pid) + RowsOf(b, pid)
    decreases |b|
  {
    if b != [] {
      var b' := b[..|b| - 1];
      assert (a + b)[..|a + b| - 1] == a + b';
      RowsOfAppend(a, b', pid);
    } else {
      assert a + b == a;
    }
  }

  /** Deleting a project's rows leaves none of them and leaves every other
      project's rows as they were, in the same order. */
  lemma {:induction false} RowsOfWithoutProject(rows: seq<QuestionRow>, pid: string, other: string)
    ensures RowsOf(WithoutProject(rows, pid), pid) == []
    ensures other != pid ==> RowsOf(WithoutProject(rows, pid), other) == RowsOf(rows, other)
    decreases |rows|
  {
    if rows != [] {
      var init := rows[..|rows| - 1];
      var last := rows[|rows| - 1];
      RowsOfWithoutProject(init, pid, other);
      var tail := if last.projectId != pid then [last] else [];
      RowsOfAppend(WithoutProject(init, pid), tail, pid);
      RowsOfAppend(WithoutProject(init, pid), tail, other);
    }
  }

  /** Rows that all belong to `pid` are their own selection for `pid` and
      contribute nothing to any other project. */
  lemma {:induction false} RowsOfUniform(rows: seq<QuestionRow>, pid: string, other: string)
    requires forall i :: 0 <= i < |rows| ==> rows[i].projectId == pid
    ensures RowsOf(rows, pid) == rows
    ensures other != pid ==> RowsOf(rows, other) == []
    decreases |rows|
  {
    if rows != [] {
      var init := rows[..|rows| - 1];
      RowsOfUniform(init, pid, other);
      assert init + [rows[|rows| - 1]] == rows;
    }
  }

  /** The rows the store creates from `drafts`, numbered from `firstId`. */
  function Assigned(drafts: seq<QuestionDraft>, firstId: nat): (rows: seq<QuestionRow>)
    ensures |rows| == |drafts|
    ensures forall i :: 0 <= i < |rows| ==>
              && rows[i].id == firstId + i
              && rows[i].projectId == drafts[i].projectId
              && rows[i].position == drafts[i].position
              && rows[i].question == drafts[i].question
              && rows[i].rationale == drafts[i].rationale
              && rows[i].status == drafts[i].status
              && rows[i].source == drafts[i].source
  {
    seq(|drafts|, i requires 0 <= i < |drafts| =>
      var d := drafts[i];
      QuestionRow(firstId + i, d.projectId, d.position, d.question, d.rationale, d.status, d.source))
  }

  /** Rows assigned from an id counter above every stored id get ids that
      no stored row has, and distinct from each other. */
  lemma AssignedIdsFresh(rows: seq<QuestionRow>, drafts: seq<QuestionDraft>, firstId: nat)
    requires forall i :: 0 <= i < |rows| ==> rows[i].id < firstId
    ensures forall i, k :: 0 <= i < |rows| && 0 <= k < |drafts| ==>
              rows[i].id != Assigned(drafts, firstId)[k].id
    ensures forall k, l :: 0 <= k < l < |drafts| ==>
              Assigned(drafts, firstId)[k].id != Assigned(drafts, firstId)[l].id
  {
  }

  class Table {
    var rows: seq<QuestionRow>
    var nextId: nat

    /** Every stored row has an id below the next one to be assigned, and
        an id names at most one stored row. */
    ghost predicate Valid()
      reads this
    {
      && (forall i :: 0 <= i < |rows| ==> rows[i].id < nextId)
      && (forall a, b :: a in rows && b in rows && a.id == b.id ==> a == b)
    }

    constructor ()
      ensures Valid() && rows == [] && nextId == 0
    {
      rows := [];
      nextId := 0;
    }

    /** `.delete().eq("project_id", pid)`: on success the project's rows
        are gone and the others stay in order; on failure nothing changes. */
    method DeleteProject(pid: string, failure: Option<string>) returns (err: Option<string>)
      requires Valid()
      modifies this
      ensures Valid() && nextId == old(nextId)
      ensures err == failure
      ensures failure.None? ==> rows == WithoutProject(old(rows), pid)
      ensures failure.Some? ==> rows == old(rows)
    {
      err := failure;
      if failure.None? {
        rows := WithoutProject(rows, pid);
      }
    }

    /** `.insert(drafts)`: a single statement, so either every draft is
        stored, with fresh ids, after the existing rows, or none is. */
    method Insert(drafts: seq<QuestionDraft>, failure: Option<string>) returns (r: Result<seq<QuestionRow>>)
      requires Valid()
      modifies this
      ensures Valid()
      ensures failure.Some? ==> r == Failure(failure.value) && rows == old(rows) && nextId == old(nextId)
      ensures failure.None? ==> && r == Success(Assigned(drafts, old(nextId)))
                                && rows == old(rows) + r.value
                                && nextId == old(nextId) + |drafts|
    {
      if failure.Some? {
        return Failure(failure.value);
      }
      var created := Assigned(drafts, nextId);
      AssignedIdsFresh(rows, drafts, nextId);
      forall a, b | a in rows + created && b in rows + created && a.id == b.id
        ensures a == b
      {
        if a in created && b in created {
          var k :| 0 <= k < |created| && created[k] == a;
          var l :| 0 <= l < |created| && created[l] == b;
          assert k == l;
        }
      }
      rows := rows + created;
      nextId := nextId + |drafts|;
      r := Success(created);
    }
  }
}
