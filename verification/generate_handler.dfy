/** The `generate-research-questions` edge function: a chain of early
    returns ending in a delete-then-insert on the question table.

    Everything the handler learns from outside is an input: the request,
    the environment, whether the store recognised the caller, the project
    lookup, the model provider's reply (with the outcome of `JSON.parse` on
    its content) and whether the delete and the insert fail. */
module GenerateHandler {
  import opened Common
  import opened Json
  import opened Text
  import opened LlmPayload
  import opened GenerateParams
  import opened QuestionNormalise
  import opened QuestionRows
  import opened QuestionTable

  /** The JSON body of a request; a field that is absent or `null` is `None`. */
  datatype GenerateBody = GenerateBody(
    projectId: Option<string>,
    topic: Option<string>,
    numQuestions: Option<Json>,
    language: Option<string>,
    model: Option<string>)

  /** What `req.json()` yields: it throws on a malformed body, and a body
      that is JSON `null` makes the later `body.projectId` throw; any other
      JSON value is read field by field (a non-object has no fields). */
  datatype RequestBody = Unreadable | NullBody | Fields(fields: GenerateBody)

  datatype Request = Request(httpMethod: string, authorization: Option<string>, body: RequestBody)

  datatype Env = Env(supabaseUrl: Option<string>, supabaseAnonKey: Option<string>, openaiKey: Option<string>)

  /** The provider's answer: a non-success HTTP status with its body text,
      or a completion whose content may be missing; `parsed` is what
      `JSON.parse` makes of the content, `None` when it throws. */
  datatype ProviderReply =
    | Rejected(detail: string)
    | Completed(content: Option<string>, parsed: Option<Json>)

  /** What the handler asks the provider for (the prompt is built from
      these; its wording and the temperature are not modelled). */
  datatype ProviderCall = ProviderCall(model: string, topic: string, language: string, count: int)

  datatype Body =
    | NoBody
    | Error(error: string)
    | ErrorDetail(error: string, detail: string)
    | ErrorRaw(error: string, raw: string)
    | ErrorRawJson(error: string, rawJson: Json)
    | Questions(questions: seq<QuestionRow>)
    | PlainText(text: string)

  datatype Response = Response(status: int, body: Body)

  /** The early-return chain either stops with a response or hands on. */
  datatype Step<T> = Stop(response: Response) | Continue(value: T)

  /** What the handler holds when it reaches the store. */
  datatype Plan = Plan(projectId: string, call: ProviderCall, questions: seq<NormalisedQuestion>)

  /** The response the Deno server sends when the handler throws. */
  const Crash: Response := Response(500, PlainText("Internal Server Error"))

  // ---------------------------------------------------------------------
  // The ladder, as a specification.

  /** The checks made before the provider is called, in source order; on
      success, the project id and the provider call. */
  function BeforeProvider(req: Request, env: Env, authenticated: bool,
                          project: Result<Option<string>>): Step<(string, ProviderCall)>
  {
    if req.httpMethod == "OPTIONS" then Stop(Response(204, NoBody))
    else if req.httpMethod != "POST" then Stop(Response(405, Error("Method not allowed")))
    else if !Present(env.supabaseUrl) || !Present(env.supabaseAnonKey) then
      Stop(Response(500, Error("Missing Supabase env")))
    else if !Present(env.openaiKey) then Stop(Response(500, Error("Missing OPENAI_API_KEY")))
    else if !Present(BearerToken(req.authorization)) then
      Stop(Response(401, Error("Missing Authorization Bearer token")))
    else if req.body.Unreadable? then Stop(Response(400, Error("Invalid JSON body")))
    else if req.body.NullBody? then Stop(Crash)
    else if !Present(req.body.fields.projectId) then Stop(Response(400, Error("projectId is required")))
    else if !authenticated then Stop(Response(401, Error("Unauthorized")))
    else if project.Failure? then Stop(Response(400, Error(project.error)))
    else
      var body := req.body.fields;
      var topic := ResolveTopic(body.topic, project.value);
      if topic == "" then Stop(Response(400, Error("Topic is empty")))
      else Continue((body.projectId.value,
                     ProviderCall(ModelName(body.model), topic, Language(body.language),
                                  EffectiveCount(body.numQuestions))))
  }

  /** The checks made on the provider's reply, in source order; on success,
      the normalised questions. */
  function AfterProvider(call: ProviderCall, reply: ProviderReply): Step<seq<NormalisedQuestion>>
    requires call.count >= 0
  {
    match reply
    case Rejected(detail) => Stop(Response(502, ErrorDetail("OpenAI request failed", detail)))
    case Completed(content, parsed) =>
      if !Present(content) then Stop(Response(502, Error("OpenAI returned empty content")))
      else if parsed.None? then Stop(Response(502, ErrorRaw("Failed to parse JSON from model", content.value)))
      else if !IsLlmPayload(parsed.value) then
        Stop(Response(502, ErrorRawJson("Invalid JSON schema from model", parsed.value)))
      else
        IsLlmPayloadIffWellFormed(parsed.value);
        match Normalise(EntriesOf(parsed.value), call.count)
        case None => Stop(Crash)
        case Some(questions) =>
          if questions == [] then Stop(Response(502, Error("Model returned no usable questions")))
          else Continue(questions)
  }

  /** The whole ladder, up to the point where the store is changed. */
  function Screen(req: Request, env: Env, authenticated: bool,
                  project: Result<Option<string>>, reply: ProviderReply): Step<Plan>
  {
    match BeforeProvider(req, env, authenticated, project)
    case Stop(r) => Stop(r)
    case Continue((pid, call)) =>
      ProviderCountInRange(req, env, authenticated, project);
      match AfterProvider(call, reply)
      case Stop(r) => Stop(r)
      case Continue(questions) => Continue(Plan(pid, call, questions))
  }

  /** The provider is asked for the request's `numQuestions` when it is a
      number in [1, 15] and for 8 otherwise, so always for 1 to 15. */
  lemma ProviderCountInRange(req: Request, env: Env, authenticated: bool,
                             project: Result<Option<string>>)
    requires BeforeProvider(req, env, authenticated, project).Continue?
    ensures var count := BeforeProvider(req, env, authenticated, project).value.1.count;
            && req.body.Fields? && count == EffectiveCount(req.body.fields.numQuestions)
            && MinCount <= count <= MaxCount
  {
  }

  /** The rows the handler inserts: one per normalised question, tagged
      with the project, `source = "ai"` and `status = "draft"`; keywords
      are not stored. */
  function Drafts(pid: string, questions: seq<NormalisedQuestion>): (ds: seq<QuestionDraft>)
    ensures |ds| == |questions|
    ensures forall i :: 0 <= i < |ds| ==>
              ds[i] == QuestionDraft(pid, questions[i].position, questions[i].question,
                                     questions[i].rationale, "draft", "ai")
  {
    seq(|questions|, i requires 0 <= i < |questions| =>
      QuestionDraft(pid, questions[i].position, questions[i].question, questions[i].rationale, "draft", "ai"))
  }

  // ---------------------------------------------------------------------
  // The handler.

  /** The effect of a run that passed the ladder on the table and the
      response: a failed delete changes nothing; a failed insert after a
      successful delete leaves the project without questions. */
  predicate ReplaceOutcome(before: seq<QuestionRow>, firstId: nat, plan: Plan,
                           deleteFailure: Option<string>, insertFailure: Option<string>,
                           after: seq<QuestionRow>, resp: Response)
  {
    var inserted := Assigned(Drafts(plan.projectId, plan.questions), firstId);
    if deleteFailure.Some? then
      resp == Response(400, Error(deleteFailure.value)) && after == before
    else if insertFailure.Some? then
      resp == Response(400, Error(insertFailure.value)) && after == WithoutProject(before, plan.projectId)
    else
      resp == Response(200, Questions(inserted)) && after == WithoutProject(before, plan.projectId) + inserted
  }

  /** Delete the project's questions, then insert the new ones and return
      them ordered by position. */
  method Replace(table: Table, plan: Plan, deleteFailure: Option<string>, insertFailure: Option<string>)
    returns (resp: Response)
    requires table.Valid()
    requires Increasing(plan.questions)
    modifies table
    ensures table.Valid()
    ensures ReplaceOutcome(old(table.rows), old(table.nextId), plan, deleteFailure, insertFailure,
                           table.rows, resp)
  {
    var deleteError := table.DeleteProject(plan.projectId, deleteFailure);
    if deleteError.Some? {
      return Response(400, Error(deleteError.value));
    }
    var inserted := table.Insert(Drafts(plan.projectId, plan.questions), insertFailure);
    if inserted.Failure? {
      return Response(400, Error(inserted.error));
    }
    InsertedInOrder(plan.projectId, plan.questions, old(table.nextId));
    SortSortedIsIdentity(inserted.value);
    resp := Response(200, Questions(SortByPosition(inserted.value)));
  }

  /** The inserted rows are already in ascending position order, so the
      `.order("position")` on the insert's result returns them as inserted. */
  lemma InsertedInOrder(pid: string, questions: seq<NormalisedQuestion>, firstId: nat)
    requires Increasing(questions)
    ensures SortedByPosition(Assigned(Drafts(pid, questions), firstId))
  {
  }

  /** The handler: every failed check returns at once with the table
      untouched; a run that passes them all replaces the project's
      questions. */
  method Handle(table: Table, req: Request, env: Env, authenticated: bool,
                project: Result<Option<string>>, reply: ProviderReply,
                deleteFailure: Option<string>, insertFailure: Option<string>)
    returns (resp: Response)
    requires table.Valid()
    modifies table
    ensures table.Valid()
    ensures Screen(req, env, authenticated, project, reply).Stop? ==>
              && resp == Screen(req, env, authenticated, project, reply).response
              && table.rows == old(table.rows) && table.nextId == old(table.nextId)
    ensures Screen(req, env, authenticated, project, reply).Continue? ==>
              ReplaceOutcome(old(table.rows), old(table.nextId),
                             Screen(req, env, authenticated, project, reply).value,
                             deleteFailure, insertFailure, table.rows, resp)
  {
    if req.httpMethod == "OPTIONS" {
      return Response(204, NoBody);
    }
    if req.httpMethod != "POST" {
      return Response(405, Error("Method not allowed"));
    }
    if !Present(env.supabaseUrl) || !Present(env.supabaseAnonKey) {
      return Response(500, Error("Missing Supabase env"));
    }
    if !Present(env.openaiKey) {
      return Response(500, Error("Missing OPENAI_API_KEY"));
    }
    var jwt := BearerToken(req.authorization);
    if !Present(jwt) {
      return Response(401, Error("Missing Authorization Bearer token"));
    }
    if req.body.Unreadable? {
      return Response(400, Error("Invalid JSON body"));
    }
    if req.body.NullBody? {
      return Crash;
    }
    var body := req.body.fields;
    if !Present(body.projectId) {
      return Response(400, Error("projectId is required"));
    }
    var pid := body.projectId.value;
    if !authenticated {
      return Response(401, Error("Unauthorized"));
    }
    if project.Failure? {
      return Response(400, Error(project.error));
    }
    var topic := ResolveTopic(body.topic, project.value);
    if topic == "" {
      return Response(400, Error("Topic is empty"));
    }
    var count := EffectiveCount(body.numQuestions);
    var call := ProviderCall(ModelName(body.model), topic, Language(body.language), count);
    assert BeforeProvider(req, env, authenticated, project) == Continue((pid, call));

    resp := HandleReply(table, pid, call, reply, deleteFailure, insertFailure);
  }

  /** The second half of the handler, from the provider's reply on. */
  method HandleReply(table: Table, pid: string, call: ProviderCall, reply: ProviderReply,
                     deleteFailure: Option<string>, insertFailure: Option<string>)
    returns (resp: Response)
    requires table.Valid()
    requires call.count >= 0
    modifies table
    ensures table.Valid()
    ensures AfterProvider(call, reply).Stop? ==>
              && resp == AfterProvider(call, reply).response
              && table.rows == old(table.rows) && table.nextId == old(table.nextId)
    ensures AfterProvider(call, reply).Continue? ==>
              ReplaceOutcome(old(table.rows), old(table.nextId),
                             Plan(pid, call, AfterProvider(call, reply).value),
                             deleteFailure, insertFailure, table.rows, resp)
  {
    if reply.Rejected? {
      return Response(502, ErrorDetail("OpenAI request failed", reply.detail));
    }
    if !Present(reply.content) {
      return Response(502, Error("OpenAI returned empty content"));
    }
    if reply.parsed.None? {
      return Response(502, ErrorRaw("Failed to parse JSON from model", reply.content.value));
    }
    var parsed := reply.parsed.value;
    if !IsLlmPayload(parsed) {
      return Response(502, ErrorRawJson("Invalid JSON schema from model", parsed));
    }
    IsLlmPayloadIffWellFormed(parsed);
    var entries := EntriesOf(parsed);
    var normalised := Normalise(entries, call.count);
    if normalised.None? {
      return Crash;
    }
    var questions := normalised.value;
    if |questions| == 0 {
      return Response(502, Error("Model returned no usable questions"));
    }
    NormaliseBounded(entries, call.count);
    resp := Replace(table, Plan(pid, call, questions), deleteFailure, insertFailure);
  }

  // ---------------------------------------------------------------------
  // Properties of the ladder.

  /** A preflight `OPTIONS` request is answered with 204 before any other
      check, and any other method except POST with 405. */
  lemma MethodChecksFirst(req: Request, env: Env, authenticated: bool,
                          project: Result<Option<string>>, reply: ProviderReply)
    ensures req.httpMethod == "OPTIONS" ==>
              Screen(req, env, authenticated, project, reply) == Stop(Response(204, NoBody))
    ensures req.httpMethod != "OPTIONS" && req.httpMethod != "POST" ==>
              Screen(req, env, authenticated, project, reply) == Stop(Response(405, Error("Method not allowed")))
  {
  }

  /** A missing, non-Bearer or empty credential gives 401 before the body
      is looked at: whatever the body, the caller or the project. */
  lemma MissingTokenBeforeBody(req: Request, env: Env, authenticated: bool,
                               project: Result<Option<string>>, reply: ProviderReply)
    requires req.httpMethod == "POST"
    requires Present(env.supabaseUrl) && Present(env.supabaseAnonKey) && Present(env.openaiKey)
    requires req.authorization.None? || req.authorization == Some("Bearer ")
             || !(|req.authorization.value| >= 7 && req.authorization.value[..7] == BearerPrefix)
    ensures Screen(req, env, authenticated, project, reply)
            == Stop(Response(401, Error("Missing Authorization Bearer token")))
  {
    BareBearerIsEmpty();
  }

  /** A missing or empty `projectId` is reported as 400 whether or not the
      caller would have been recognised: the checks run in source order. */
  lemma MissingProjectIdBeforeAuth(req: Request, env: Env, authenticated: bool,
                                   project: Result<Option<string>>, reply: ProviderReply)
    requires req.httpMethod == "POST"
    requires Present(env.supabaseUrl) && Present(env.supabaseAnonKey) && Present(env.openaiKey)
    requires Present(BearerToken(req.authorization))
    requires req.body.Fields? && !Present(req.body.fields.projectId)
    ensures Screen(req, env, authenticated, project, reply)
            == Stop(Response(400, Error("projectId is required")))
  {
  }

  /** Once the method, environment and credential checks pass, a body
      that is not JSON gives 400 and a body that is JSON `null` makes the
      handler throw, both before the project id is looked at. */
  lemma BodyReadFailures(req: Request, env: Env, authenticated: bool,
                         project: Result<Option<string>>, reply: ProviderReply)
    requires req.httpMethod == "POST"
    requires Present(env.supabaseUrl) && Present(env.supabaseAnonKey) && Present(env.openaiKey)
    requires Present(BearerToken(req.authorization))
    ensures req.body.Unreadable? ==>
              Screen(req, env, authenticated, project, reply) == Stop(Response(400, Error("Invalid JSON body")))
    ensures req.body.NullBody? ==> Screen(req, env, authenticated, project, reply) == Stop(Crash)
  {
  }

  /** When the ladder stops before the provider call, the provider's reply
      plays no part: the model is never asked. */
  lemma EarlyStopIgnoresProvider(req: Request, env: Env, authenticated: bool,
                                 project: Result<Option<string>>, r1: ProviderReply, r2: ProviderReply)
    requires BeforeProvider(req, env, authenticated, project).Stop?
    ensures Screen(req, env, authenticated, project, r1) == Screen(req, env, authenticated, project, r2)
  {
  }

  /** A topic that is missing or blank after resolution stops the request
      with 400 "Topic is empty" before the provider is called; a blank
      topic in the request is not replaced by the project's. */
  lemma BlankTopicStops(req: Request, env: Env, project: Result<Option<string>>, reply: ProviderReply)
    requires req.httpMethod == "POST" && Present(env.supabaseUrl) && Present(env.supabaseAnonKey)
    requires Present(env.openaiKey) && Present(BearerToken(req.authorization))
    requires req.body.Fields? && Present(req.body.fields.projectId) && project.Success?
    requires IsBlank(req.body.fields.topic.GetOr(project.value.GetOr("")))
    ensures Screen(req, env, true, project, reply) == Stop(Response(400, Error("Topic is empty")))
  {
    TrimEmptyIffBlank(req.body.fields.topic.GetOr(project.value.GetOr("")));
  }

  /** A payload with one malformed element is rejected as a whole with 502,
      and the table is not touched (see Handle). */
  lemma SchemaInvalidRejectsWhole(req: Request, env: Env, authenticated: bool,
                                  project: Result<Option<string>>, content: string, v: Json)
    requires BeforeProvider(req, env, authenticated, project).Continue?
    requires content != "" && !WellFormedPayload(v)
    ensures Screen(req, env, authenticated, project, Completed(Some(content), Some(v)))
            == Stop(Response(502, ErrorRawJson("Invalid JSON schema from model", v)))
  {
    IsLlmPayloadIffWellFormed(v);
  }

  /** A schema-valid payload makes the handler throw exactly when one of
      the first `count` questions has a rationale that is present but not
      a string. */
  lemma ReplyCrashesIff(call: ProviderCall, content: string, v: Json)
    requires call.count >= 0 && content != "" && WellFormedPayload(v)
    ensures AfterProvider(call, Completed(Some(content), Some(v))) == Stop(Crash) <==>
            exists i :: 0 <= i < Min(call.count, |EntriesOf(v)|) && EntriesOf(v)[i].rationale.NotText?
  {
    IsLlmPayloadIffWellFormed(v);
    NormaliseThrowsIff(EntriesOf(v), call.count);
  }

  /** What a run that reaches the store has established about the
      request: every check passed and the provider was asked for 1 to 15
      questions on a non-empty topic. */
  lemma PlanChecksPassed(req: Request, env: Env, authenticated: bool,
                         project: Result<Option<string>>, reply: ProviderReply)
    requires Screen(req, env, authenticated, project, reply).Continue?
    ensures var plan := Screen(req, env, authenticated, project, reply).value;
            && req.httpMethod == "POST" && authenticated && project.Success?
            && Present(BearerToken(req.authorization))
            && req.body.Fields? && req.body.fields.projectId == Some(plan.projectId) && plan.projectId != ""
            && plan.call.topic != "" && plan.call.topic == ResolveTopic(req.body.fields.topic, project.value)
            && MinCount <= plan.call.count <= MaxCount
  {
  }

  /** ... and about the questions: between 1 and `count` of them, with
      strictly increasing positions within [1, count] and non-empty text. */
  lemma PlanQuestionsUsable(req: Request, env: Env, authenticated: bool,
                            project: Result<Option<string>>, reply: ProviderReply)
    requires Screen(req, env, authenticated, project, reply).Continue?
    ensures var plan := Screen(req, env, authenticated, project, reply).value;
            && 1 <= |plan.questions| <= plan.call.count
            && Increasing(plan.questions)
            && forall k :: 0 <= k < |plan.questions| ==>
                 1 <= plan.questions[k].position <= plan.call.count && plan.questions[k].question != ""
  {
    var plan := Screen(req, env, authenticated, project, reply).value;
    ProviderCountInRange(req, env, authenticated, project);
    assert AfterProvider(plan.call, reply) == Continue(plan.questions);
    ReplyQuestionsUsable(plan.call, reply);
  }

  /** The questions a reply that passes every check yields. */
  lemma ReplyQuestionsUsable(call: ProviderCall, reply: ProviderReply)
    requires call.count >= 0 && AfterProvider(call, reply).Continue?
    ensures var qs := AfterProvider(call, reply).value;
            && 1 <= |qs| <= call.count
            && Increasing(qs)
            && forall k :: 0 <= k < |qs| ==> 1 <= qs[k].position <= call.count && qs[k].question != ""
  {
    var qs := AfterProvider(call, reply).value;
    var v := reply.parsed.value;
    IsLlmPayloadIffWellFormed(v);
    var es := EntriesOf(v);
    assert Normalise(es, call.count) == Some(qs);
    NormaliseBounded(es, call.count);
    forall k | 0 <= k < |qs|
      ensures 1 <= qs[k].position <= call.count && qs[k].question != ""
    {
      NormaliseKeeps(es, call.count, k);
    }
  }

  // ---------------------------------------------------------------------
  // Properties of the replacement.

  /** After a successful replacement the response holds one row per
      normalised question, with its position, text and rationale, tagged
      with the project, `source = "ai"` and `status = "draft"`, in strictly
      ascending position order. */
  lemma ReplaceReturnsInserted(before: seq<QuestionRow>, firstId: nat, plan: Plan,
                               after: seq<QuestionRow>, resp: Response)
    requires Increasing(plan.questions)
    requires ReplaceOutcome(before, firstId, plan, None, None, after, resp)
    ensures resp.status == 200 && resp.body.Questions?
    ensures |resp.body.questions| == |plan.questions|
    ensures forall i :: 0 <= i < |plan.questions| ==>
              var row := resp.body.questions[i];
              var q := plan.questions[i];
              && row.projectId == plan.projectId && row.source == "ai" && row.status == "draft"
              && row.position == q.position && row.question == q.question && row.rationale == q.rationale
    ensures forall i, j :: 0 <= i < j < |resp.body.questions| ==>
              resp.body.questions[i].position < resp.body.questions[j].position
  {
  }

  /** ... and the project's stored rows are exactly those, while every
      other project's rows are unchanged. */
  lemma ReplaceStoresInserted(before: seq<QuestionRow>, firstId: nat, plan: Plan,
                              after: seq<QuestionRow>, resp: Response, other: string)
    requires ReplaceOutcome(before, firstId, plan, None, None, after, resp)
    ensures resp.body.Questions? && RowsOf(after, plan.projectId) == resp.body.questions
    ensures other != plan.projectId ==> RowsOf(after, other) == RowsOf(before, other)
  {
    var inserted := Assigned(Drafts(plan.projectId, plan.questions), firstId);
    var kept := WithoutProject(before, plan.projectId);
    RowsOfAppend(kept, inserted, plan.projectId);
    RowsOfAppend(kept, inserted, other);
    RowsOfWithoutProject(before, plan.projectId, other);
    RowsOfUniform(inserted, plan.projectId, other);
  }

  /** A failed delete changes nothing. A failed insert after a successful
      delete leaves the project with no questions at all, while the other
      projects keep theirs: the two steps are not atomic. */
  lemma ReplaceFails(before: seq<QuestionRow>, firstId: nat, plan: Plan,
                     deleteFailure: Option<string>, insertFailure: Option<string>,
                     after: seq<QuestionRow>, resp: Response, other: string)
    requires deleteFailure.Some? || insertFailure.Some?
    requires ReplaceOutcome(before, firstId, plan, deleteFailure, insertFailure, after, resp)
    ensures resp.status == 400
    ensures deleteFailure.Some? ==> after == before
    ensures deleteFailure.None? ==> RowsOf(after, plan.projectId) == []
    ensures other != plan.projectId ==> RowsOf(after, other) == RowsOf(before, other)
  {
    RowsOfWithoutProject(before, plan.projectId, other);
  }
}
