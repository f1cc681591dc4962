/** What the edge function makes of an accepted payload before storing it:
    `questions.slice(0, count).map((q, idx) => ...).filter(...)`. Positions
    come from an entry's index in the model's array, taken before blank
    entries are dropped, so the kept positions increase but may have gaps. */
module QuestionNormalise {
  import opened Common
  import opened Json
  import opened Text
  import opened LlmPayload

  /** The `rationale` property as `(q.rationale ?? "").trim()` sees it:
      absent or `null`, a string, or any other value (on which `.trim()`
      throws a TypeError). */
  datatype RationaleField = Missing | Text(s: string) | NotText

  /** One element of an accepted payload, read through the `LlmQuestion`
      type the source casts it to; the model's own `position` is not read. */
  datatype Entry = Entry(question: string, rationale: RationaleField, keywords: Option<seq<Json>>)

  datatype NormalisedQuestion = NormalisedQuestion(
    position: int,
    question: string,
    rationale: Option<string>,
    keywords: Option<seq<Json>>)

  function RationaleOf(q: Json): RationaleField {
    match Prop(q, "rationale")
    case None => Missing
    case Some(JNull) => Missing
    case Some(JStr(s)) => Text(s)
    case Some(_) => NotText
  }

  /** `keywords` is kept only when it is an array. */
  function KeywordsOf(q: Json): Option<seq<Json>> {
    match Prop(q, "keywords")
    case Some(JArr(ks)) => Some(ks)
    case _ => None
  }

  function EntryOf(q: Json): (e: Entry)
    requires WellFormedQuestion(q)
    ensures e.question == q.fields["question"].s
  {
    Entry(q.fields["question"].s, RationaleOf(q), KeywordsOf(q))
  }

  /** The elements of an accepted payload, in order. */
  function EntriesOf(v: Json): (es: seq<Entry>)
    requires WellFormedPayload(v)
    ensures |es| == |QuestionsOf(v)|
    ensures forall i :: 0 <= i < |es| ==> es[i] == EntryOf(QuestionsOf(v)[i])
  {
    var items := QuestionsOf(v);
    seq(|items|, i requires 0 <= i < |items| => EntryOf(items[i]))
  }

  /** The `map` callback for the entry at index `idx`; `None` when the
      callback throws on a rationale that is not a string. */
  function NormaliseAt(e: Entry, idx: int): (r: Option<NormalisedQuestion>)
    ensures r.None? <==> e.rationale.NotText?
  {
    match e.rationale
    case NotText => None
    case Missing =>
      Some(NormalisedQuestion(idx + 1, Trim(e.question), None, e.keywords))
    case Text(s) =>
      var t := Trim(s);
      Some(NormalisedQuestion(idx + 1, Trim(e.question), if t == "" then None else Some(t), e.keywords))
  }

  /** The position is `idx + 1` whatever position the model gave, the
      question is trimmed, and the rationale is `null` exactly when it is
      absent or blank, its trimmed text otherwise. */
  lemma NormaliseAtFields(e: Entry, idx: int)
    requires !e.rationale.NotText?
    ensures var n := NormaliseAt(e, idx).value;
            && n.position == idx + 1
            && n.question == Trim(e.question)
            && n.keywords == e.keywords
            && (n.rationale.None? <==> e.rationale.Missing? || IsBlank(e.rationale.s))
            && (n.rationale.Some? ==> n.rationale.value == Trim(e.rationale.s))
  {
    if e.rationale.Text? {
      TrimEmptyIffBlank(e.rationale.s);
    }
  }

  /** `.map((q, idx) => ...)` over `es`, whose first index is `from`:
      all-or-nothing, since one throwing callback aborts the whole map. */
  function MapIndexed(es: seq<Entry>, from: nat): (r: Option<seq<NormalisedQuestion>>)
    ensures r.Some? <==> forall i :: 0 <= i < |es| ==> !es[i].rationale.NotText?
    ensures r.Some? ==> |r.value| == |es|
    ensures r.Some? ==> forall i :: 0 <= i < |es| ==> Some(r.value[i]) == NormaliseAt(es[i], from + i)
  {
    if forall i :: 0 <= i < |es| ==> !es[i].rationale.NotText? then
      Some(seq(|es|, i requires 0 <= i < |es| => NormaliseAt(es[i], from + i).value))
    else None
  }

  /** `.filter((q) => q.question.length > 0)`: keeps, in order, exactly the
      entries with a non-empty question. */
  function KeepAsked(qs: seq<NormalisedQuestion>): (r: seq<NormalisedQuestion>)
    ensures |r| <= |qs|
    ensures forall q :: q in r <==> q in qs && q.question != ""
    decreases |qs|
  {
    if qs == [] then []
    else if qs[0].question != "" then [qs[0]] + KeepAsked(qs[1..])
    else KeepAsked(qs[1..])
  }

  predicate Increasing(qs: seq<NormalisedQuestion>) {
    forall i, j :: 0 <= i < j < |qs| ==> qs[i].position < qs[j].position
  }

  /** Filtering keeps the order of what it keeps. */
  lemma {:induction false} KeepAskedIncreasing(qs: seq<NormalisedQuestion>)
    requires Increasing(qs)
    ensures Increasing(KeepAsked(qs))
    decreases |qs|
  {
    if qs != [] {
      var rest := KeepAsked(qs[1..]);
      KeepAskedIncreasing(qs[1..]);
      forall q | q in rest ensures qs[0].position < q.position {
        var i :| 0 <= i < |qs[1..]| && qs[1..][i] == q;
        assert qs[i + 1] == q;
      }
    }
  }

  /** The whole pipeline; `None` is the TypeError thrown for a non-string
      rationale among the first `count` entries. */
  function Normalise(es: seq<Entry>, count: nat): Option<seq<NormalisedQuestion>> {
    match MapIndexed(es[..Min(count, |es|)], 0)
    case None => None
    case Some(mapped) => Some(KeepAsked(mapped))
  }

  /** The pipeline throws exactly when one of the first `count` entries has
      a rationale that is neither absent, null nor a string. */
  lemma NormaliseThrowsIff(es: seq<Entry>, count: nat)
    ensures Normalise(es, count).None? <==>
            exists i :: 0 <= i < Min(count, |es|) && es[i].rationale.NotText?
  {
    var n := Min(count, |es|);
    assert forall i :: 0 <= i < n ==> es[..n][i] == es[i];
  }

  /** The mapped prefix: entry `i` is the callback's result on `es[i]`,
      carrying position `i + 1`. */
  lemma MappedPrefix(es: seq<Entry>, count: nat)
    requires Normalise(es, count).Some?
    ensures var n := Min(count, |es|);
            var m := MapIndexed(es[..n], 0);
            && m.Some? && |m.value| == n
            && Normalise(es, count).value == KeepAsked(m.value)
            && Increasing(m.value)
            && forall i :: 0 <= i < n ==>
                 Some(m.value[i]) == NormaliseAt(es[i], i) && m.value[i].position == i + 1
  {
    var n := Min(count, |es|);
    var prefix := es[..n];
    var mapped := MapIndexed(prefix, 0).value;
    forall i | 0 <= i < n
      ensures Some(mapped[i]) == NormaliseAt(es[i], i) && mapped[i].position == i + 1
    {
      assert prefix[i] == es[i];
      NormaliseAtFields(es[i], i);
    }
  }

  /** A successful run yields at most min(count, |es|) questions, with
      strictly increasing positions (gaps allowed). */
  lemma NormaliseBounded(es: seq<Entry>, count: nat)
    requires Normalise(es, count).Some?
    ensures |Normalise(es, count).value| <= Min(count, |es|)
    ensures Increasing(Normalise(es, count).value)
  {
    MappedPrefix(es, count);
    KeepAskedIncreasing(MapIndexed(es[..Min(count, |es|)], 0).value);
  }

  /** Every kept question is the normalised entry at index position - 1,
      with its position in [1, min(count, |es|)] and a non-empty question. */
  lemma NormaliseKeeps(es: seq<Entry>, count: nat, k: int)
    requires Normalise(es, count).Some?
    requires 0 <= k < |Normalise(es, count).value|
    ensures var q := Normalise(es, count).value[k];
            && 1 <= q.position <= Min(count, |es|)
            && Some(q) == NormaliseAt(es[q.position - 1], q.position - 1)
            && q.question != ""
  {
    MappedPrefix(es, count);
    var mapped := MapIndexed(es[..Min(count, |es|)], 0).value;
    var q := Normalise(es, count).value[k];
    assert q in KeepAsked(mapped);
    assert q in mapped && q.question != "";
    var i :| 0 <= i < |mapped| && mapped[i] == q;
    assert q.position == i + 1;
    assert Some(q) == NormaliseAt(es[i], i);
  }

  /** Every entry among the first `count` whose trimmed question is
      non-empty is kept, at position index + 1. */
  lemma NormaliseComplete(es: seq<Entry>, count: nat, i: int)
    requires Normalise(es, count).Some?
    requires 0 <= i < Min(count, |es|) && Trim(es[i].question) != ""
    ensures exists k :: 0 <= k < |Normalise(es, count).value|
                        && Normalise(es, count).value[k].position == i + 1
  {
    MappedPrefix(es, count);
    var mapped := MapIndexed(es[..Min(count, |es|)], 0).value;
    var r := Normalise(es, count).value;
    NormaliseAtFields(es[i], i);
    assert mapped[i] in mapped;
    assert mapped[i] in r;
    var k :| 0 <= k < |r| && r[k] == mapped[i];
  }

  /** Positions come from the index before blank questions are dropped, so
      the kept positions need not be 1..K: a blank first entry leaves the
      second one at position 2 with nothing at position 1. */
  lemma BlankEntryLeavesGap()
    ensures Normalise([Entry(" ", Missing, None), Entry("Q", Missing, None)], 2)
         == Some([NormalisedQuestion(2, "Q", None, None)])
  {
    var es := [Entry(" ", Missing, None), Entry("Q", Missing, None)];
    assert es[..Min(2, |es|)] == es;
    assert Trim(" ") == "" by { TrimEmptyIffBlank(" "); }
    assert Trim("Q") == "Q";
    var mapped := MapIndexed(es, 0).value;
    assert mapped == [NormalisedQuestion(1, "", None, None), NormalisedQuestion(2, "Q", None, None)];
    assert KeepAsked(mapped) == [NormalisedQuestion(2, "Q", None, None)];
  }
}
