/** Rows of the `research_questions` table and their order by position. */
module QuestionRows {
  import opened Common

  /** A stored research question (timestamps are not modelled). */
  datatype QuestionRow = QuestionRow(
    id: nat,
    projectId: string,
    position: int,
    question: string,
    rationale: Option<string>,
    status: string,
    source: string)

  predicate SortedByPosition(s: seq<QuestionRow>) {
    forall i, j :: 0 <= i < j < |s| ==> s[i].position <= s[j].position
  }

  /** Where a stable sort puts `x` when it comes after every row of `s`:
      just after the last row whose position is at most `x.position`. */
  function InsertionPoint(s: seq<QuestionRow>, x: QuestionRow): (k: nat)
    ensures k <= |s|
    ensures forall i :: k <= i < |s| ==> s[i].position > x.position
    ensures k > 0 ==> s[k - 1].position <= x.position
    decreases |s|
  {
    if s == [] then 0
    else if s[|s| - 1].position <= x.position then |s|
    else InsertionPoint(s[..|s| - 1], x)
  }

  /** `x` placed into `s` at its insertion point. */
  function InsertByPosition(s: seq<QuestionRow>, x: QuestionRow): seq<QuestionRow> {
    var k := InsertionPoint(s, x);
    s[..k] + [x] + s[k..]
  }

  /** The elements of `InsertByPosition(s, x)`, index by index. */
  lemma InsertByPositionAt(s: seq<QuestionRow>, x: QuestionRow)
    ensures var k := InsertionPoint(s, x);
            var r := InsertByPosition(s, x);
            && |r| == |s| + 1
            && (forall i :: 0 <= i < k ==> r[i] == s[i])
            && r[k] == x
            && (forall i :: k < i < |r| ==> r[i] == s[i - 1])
  {
  }

  /** In a sorted list, every row before the insertion point has a
      position at most `x.position`. */
  lemma BeforeInsertionPoint(s: seq<QuestionRow>, x: QuestionRow)
    requires SortedByPosition(s)
    ensures forall i :: 0 <= i < InsertionPoint(s, x) ==> s[i].position <= x.position
  {
    var k := InsertionPoint(s, x);
    forall i | 0 <= i < k ensures s[i].position <= x.position {
      assert s[i].position <= s[k - 1].position;
    }
  }

  lemma InsertByPositionKeepsSorted(s: seq<QuestionRow>, x: QuestionRow)
    requires SortedByPosition(s)
    ensures SortedByPosition(InsertByPosition(s, x))
  {
    var k := InsertionPoint(s, x);
    var r := InsertByPosition(s, x);
    InsertByPositionAt(s, x);
    BeforeInsertionPoint(s, x);
    forall i, j | 0 <= i < j < |r| ensures r[i].position <= r[j].position {
      var pi := if i < k then s[i].position else if i == k then x.position else s[i - 1].position;
      var pj := if j < k then s[j].position else if j == k then x.position else s[j - 1].position;
      assert r[i].position == pi && r[j].position == pj;
    }
  }

  lemma InsertByPositionAddsOne(s: seq<QuestionRow>, x: QuestionRow)
    ensures multiset(InsertByPosition(s, x)) == multiset(s) + multiset{x}
  {
    var k := InsertionPoint(s, x);
    assert s == s[..k] + s[k..];
  }

  /** Inserting into a sorted list keeps it sorted and adds exactly `x`;
      every row with position at most `x.position` stays before `x`, every
      larger one after it, so among equal positions `x` comes last. */
  lemma InsertByPositionSorted(s: seq<QuestionRow>, x: QuestionRow)
    requires SortedByPosition(s)
    ensures SortedByPosition(InsertByPosition(s, x))
    ensures multiset(InsertByPosition(s, x)) == multiset(s) + multiset{x}
    ensures var k := InsertionPoint(s, x);
            && (forall i :: 0 <= i < k ==> s[i].position <= x.position)
            && (forall i :: k <= i < |s| ==> s[i].position > x.position)
  {
    InsertByPositionKeepsSorted(s, x);
    InsertByPositionAddsOne(s, x);
    BeforeInsertionPoint(s, x);
  }

  /** A stable sort by ascending position: each row, taken left to right, is
      inserted after the rows already placed with an equal position. */
  function SortByPosition(s: seq<QuestionRow>): seq<QuestionRow>
    decreases |s|
  {
    if s == [] then []
    else InsertByPosition(SortByPosition(s[..|s| - 1]), s[|s| - 1])
  }

  /** The sort orders by position and is a permutation of its input. */
  lemma {:induction false} SortByPositionSorts(s: seq<QuestionRow>)
    ensures SortedByPosition(SortByPosition(s))
    ensures multiset(SortByPosition(s)) == multiset(s)
    decreases |s|
  {
    if s != [] {
      var init, last := s[..|s| - 1], s[|s| - 1];
      SortByPositionSorts(init);
      InsertByPositionKeepsSorted(SortByPosition(init), last);
      InsertByPositionAddsOne(SortByPosition(init), last);
      assert s == init + [last];
    }
  }

  /** A row at or past the last position of a sorted list is inserted at
      its end. */
  lemma InsertAtEnd(s: seq<QuestionRow>, x: QuestionRow)
    requires s == [] || s[|s| - 1].position <= x.position
    ensures InsertByPosition(s, x) == s + [x]
  {
    assert s[..|s|] == s && s[|s|..] == [];
  }

  /** Sorting a list that is already in position order changes nothing. */
  lemma {:induction false} SortSortedIsIdentity(s: seq<QuestionRow>)
    requires SortedByPosition(s)
    ensures SortByPosition(s) == s
    decreases |s|
  {
    if s != [] {
      var init, last := s[..|s| - 1], s[|s| - 1];
      assert SortedByPosition(init);
      SortSortedIsIdentity(init);
      assert init == [] || init[|init| - 1].position <= last.position;
      InsertAtEnd(init, last);
      assert init + [last] == s;
    }
  }

  /** Appending `x` and re-sorting a sorted list is inserting `x` at its
      insertion point. */
  lemma SortAppended(s: seq<QuestionRow>, x: QuestionRow)
    requires SortedByPosition(s)
    ensures SortByPosition(s + [x]) == InsertByPosition(s, x)
  {
    assert (s + [x])[..|s|] == s;
    SortSortedIsIdentity(s);
  }

  /** A row whose position exceeds every position of a sorted list ends up
      last. */
  lemma GreatestGoesLast(s: seq<QuestionRow>, x: QuestionRow)
    requires SortedByPosition(s)
    requires forall i :: 0 <= i < |s| ==> s[i].position < x.position
    ensures SortByPosition(s + [x]) == s + [x]
  {
    SortAppended(s, x);
    assert s == [] || s[|s| - 1].position < x.position;
    InsertAtEnd(s, x);
  }
}
