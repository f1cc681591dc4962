# Research-question generation and the question/answer hooks, in Dafny

This project models the part of the thesis assistant that produces and keeps
a project's research questions:

- the `generate-research-questions` edge function. It runs a ladder of early
  returns: method, environment, bearer credential, body, project id, caller,
  project lookup, topic. Then it asks a language model for questions and
  checks the reply's shape (`isLlmPayload`). Next it normalises the questions
  (slice to the requested count, renumber, trim, drop blank ones). Finally it
  replaces the project's stored questions with a delete followed by an
  insert, and returns the inserted rows ordered by position;
- the client's copy of the shape check (`isResearchQuestionsPayload`);
- the `useQuestions` hook: a project's question list, kept ordered by
  position, with `refresh` and `createQuestion`;
- the `useAnswers` hook: the answers to a project's questions, the index of
  them by question id, `refresh` and `upsertAnswer`.

Everything the code learns from outside is a parameter of the model. That
covers:

- the HTTP request, the environment and whether the store recognised the
  caller;
- the project lookup;
- the model provider's reply, together with what `JSON.parse` made of its
  content;
- the outcome of every store call. A failure is the store's error message.
  A success is the snapshot or the values the store assigns.

The question table the edge function changes is a class (`QuestionTable.Table`)
whose `rows` the delete and the insert reassign. Each hook is a class whose
fields are the hook's state (`questions`/`answers`, `loading`, `error`) and
whose methods are the hook's callbacks.

Modules, one per file:

| module | file | models |
|---|---|---|
| `Common` | common.dfy | `Option`, `Result`, JavaScript truthiness of an optional string |
| `Json` | json.dfy | parsed JSON values, `typeof`, property reads, `Array.isArray` |
| `Text` | text.dfy | `String.prototype.trim` |
| `LlmPayload` | llm_payload.dfy | `isLlmPayload` and a reference definition of a well-formed payload |
| `QuestionMapper` | question_mapper.dfy | `isResearchQuestionsPayload` |
| `GenerateParams` | generate_params.dfy | bearer credential, question count, language, model, topic |
| `QuestionNormalise` | question_normalise.dfy | the `slice`/`map`/`filter` pipeline over the accepted questions |
| `QuestionRows` | question_rows.dfy | question rows and the stable ordering by position |
| `QuestionTable` | question_table.dfy | the `research_questions` table: per-project views, delete, insert |
| `GenerateHandler` | generate_handler.dfy | the edge function's handler |
| `QuestionsHook` | questions_hook.dfy | `useQuestions` |
| `AnswersHook` | answers_hook.dfy | `useAnswers` |

The handler has two descriptions:

- a specification, `Screen`, which returns either the response of the first
  check that fails or the plan the handler holds when it reaches the store;
- the imperative `Handle` method, which is proved to answer with `Screen`'s
  response without touching the table, or else to carry out the plan as the
  `ReplaceOutcome` predicate describes.

Two behaviours of the code are easy to misread:

- **Question count.** An out-of-range `numQuestions` is not clamped to
  [1, 15]. Any value outside that range, and any non-number, is replaced by
  8 (index.ts:124-129, `GenerateParams.EffectiveCount`).
- **Positions.** Stored positions are not always 1..K. Position `idx + 1`
  comes from the index in the model's array, taken before blank questions
  are dropped (index.ts:189-195). So positions increase strictly but can
  have gaps. `QuestionNormalise.BlankEntryLeavesGap` exhibits such an input.

Some members only carry values from one shape to another (the element
readers and the row builders). Their contracts list the fields they copy,
and their rows below say "plumbing". The properties about them are stated by
the lemmas named in those rows.

## Model

Source paths are relative to the repository root.

| member | source | states |
|---|---|---|
| Text.IsWhitespace | supabase/functions/generate-research-questions/index.ts:191 | the characters `trim` removes: ECMAScript WhiteSpace and LineTerminator |
| Text.Trim | supabase/functions/generate-research-questions/index.ts:191 | `String.prototype.trim`; its properties are stated by TrimStartSpec, TrimEndSpec, TrimIsMiddle, TrimEmptyIffBlank and TrimIdempotent |
| Text.TrimStartSpec | supabase/functions/generate-research-questions/index.ts:191 | leading-whitespace removal keeps a suffix that does not start with whitespace, and only whitespace is cut |
| Text.TrimEndSpec | supabase/functions/generate-research-questions/index.ts:191 | trailing-whitespace removal keeps a prefix that does not end with whitespace, and only whitespace is cut |
| Text.TrimIsMiddle | supabase/functions/generate-research-questions/index.ts:191 | `trim` keeps a contiguous middle slice, only whitespace lies around it, and the result neither starts nor ends with whitespace |
| Text.TrimEmptyIffBlank | supabase/functions/generate-research-questions/index.ts:119-120 | a trimmed string is empty exactly when the input was whitespace only (both directions) |
| Text.TrimIdempotent | supabase/functions/generate-research-questions/index.ts:191 | trimming twice equals trimming once |
| Json.TypeOf | supabase/functions/generate-research-questions/index.ts:50 | `typeof` is "object" exactly for null, arrays and objects |
| Json.Prop | supabase/functions/generate-research-questions/index.ts:51-52 | a property read is defined exactly on objects that have the key, and yields that field |
| LlmPayload.QuestionShapeOk | supabase/functions/generate-research-questions/index.ts:54-56 | the `every` callback; equivalent to a well-formed element by QuestionShapeOkIffWellFormed |
| LlmPayload.EveryQuestion | supabase/functions/generate-research-questions/index.ts:53-57 | the left-to-right, short-circuiting `every`; equal to "all elements well formed" by EveryQuestionIffAll |
| LlmPayload.IsLlmPayload | supabase/functions/generate-research-questions/index.ts:49-58 | `isLlmPayload`; characterised by IsLlmPayloadIffWellFormed, OneBadElementRejects, EmptyArrayAccepted, ExtraElementFieldsIgnored and ExtraTopLevelFieldsIgnored |
| LlmPayload.QuestionShapeOkIffWellFormed | supabase/functions/generate-research-questions/index.ts:54-56 | the `every` callback accepts an element iff it is an object with a numeric `position` and a string `question` |
| LlmPayload.EveryQuestionIffAll | supabase/functions/generate-research-questions/index.ts:53-57 | the left-to-right, short-circuiting `every` accepts iff every element is well formed |
| LlmPayload.IsLlmPayloadIffWellFormed | supabase/functions/generate-research-questions/index.ts:49-58 | `isLlmPayload` accepts iff the value is an object whose `questions` is an array of well-formed elements |
| LlmPayload.OneBadElementRejects | supabase/functions/generate-research-questions/index.ts:53-57 | one malformed element anywhere rejects the whole payload |
| LlmPayload.EmptyArrayAccepted | supabase/functions/generate-research-questions/index.ts:52-53 | `{questions: []}` with any other fields is accepted |
| LlmPayload.ExtraElementFieldsIgnored | supabase/functions/generate-research-questions/index.ts:55-56 | adding or changing a field other than `position`/`question` on an element leaves the verdict as it was, accepted or rejected |
| LlmPayload.ExtraTopLevelFieldsIgnored | supabase/functions/generate-research-questions/index.ts:51-52 | a payload field other than `questions` never changes the verdict |
| QuestionMapper.ElementOk | src/services/mappers/questionMapper.ts:24-26 | the client's `every` callback |
| QuestionMapper.IsResearchQuestionsPayload | src/services/mappers/questionMapper.ts:19-28 | `isResearchQuestionsPayload`, with `every` stated as "the callback holds of every element"; characterised by RejectsNonObjects, RejectsWithoutQuestionsArray, AcceptsIffEveryElementWellFormed and SameVerdictAsLlmPayload |
| QuestionMapper.RejectsNonObjects | src/services/mappers/questionMapper.ts:20 | null, booleans, numbers and strings are rejected |
| QuestionMapper.RejectsWithoutQuestionsArray | src/services/mappers/questionMapper.ts:21-22 | a value without an array-valued `questions` property is rejected |
| QuestionMapper.AcceptsIffEveryElementWellFormed | src/services/mappers/questionMapper.ts:23-27 | with a `questions` array, accepted iff every element is well formed |
| QuestionMapper.SameVerdictAsLlmPayload | src/services/mappers/questionMapper.ts:19-28 | the client check and the edge function's check agree on every value |
| GenerateParams.BearerToken | supabase/functions/generate-research-questions/index.ts:79-80 | a credential exists iff the header starts with "Bearer " (case sensitive), and the header is that prefix followed by the credential |
| GenerateParams.BearerTokenRoundTrip | supabase/functions/generate-research-questions/index.ts:80 | prefixing a credential with "Bearer " and reading it back gives the credential |
| GenerateParams.BareBearerIsEmpty | supabase/functions/generate-research-questions/index.ts:80-83 | the header "Bearer " alone yields an empty, hence missing, credential |
| GenerateParams.EffectiveCount | supabase/functions/generate-research-questions/index.ts:124-129 | the count is always in [1, 15]; a number in range is kept; anything else becomes 8 |
| GenerateParams.OutOfRangeCountIsDefault | supabase/functions/generate-research-questions/index.ts:124-129 | 0, 16, any out-of-range number, a numeric string and a missing count all give 8 |
| GenerateParams.TrimmedOr | supabase/functions/generate-research-questions/index.ts:130-131 | a non-blank value gives its non-empty trimmed text; a blank value gives the fallback; no value gives the trimmed fallback |
| GenerateParams.Language | supabase/functions/generate-research-questions/index.ts:130 | the prompt language; properties stated by LanguageAndModelDefaults |
| GenerateParams.ModelName | supabase/functions/generate-research-questions/index.ts:131 | the model name; properties stated by LanguageAndModelDefaults |
| GenerateParams.TrimmedOrTrimmedFallback | supabase/functions/generate-research-questions/index.ts:130-131 | with a trimmed, non-blank fallback the result is never empty and is the trimmed value or the fallback |
| GenerateParams.DefaultsAreTrimmed | supabase/functions/generate-research-questions/index.ts:130-131 | "es" and "gpt-4o-mini" are non-blank and unchanged by `trim` |
| GenerateParams.LanguageAndModelDefaults | supabase/functions/generate-research-questions/index.ts:130-131 | language and model are never empty: the trimmed request value when present and not blank, else "es" / "gpt-4o-mini" |
| GenerateParams.ResolveTopic | supabase/functions/generate-research-questions/index.ts:119 | the request's topic (trimmed) wins when present; otherwise the project's topic (trimmed); otherwise empty |
| GenerateParams.BlankRequestedTopicHasNoFallback | supabase/functions/generate-research-questions/index.ts:119-122 | a blank topic in the request resolves to empty even when the project has a topic |
| QuestionNormalise.RationaleOf | supabase/functions/generate-research-questions/index.ts:192 | reads `rationale` as absent/null, a string, or any other value (on which `.trim()` throws) |
| QuestionNormalise.KeywordsOf | supabase/functions/generate-research-questions/index.ts:193 | keeps `keywords` only when it is an array |
| QuestionNormalise.EntryOf | supabase/functions/generate-research-questions/index.ts:187-191 | plumbing: an accepted element is read with its `question` string |
| QuestionNormalise.EntriesOf | supabase/functions/generate-research-questions/index.ts:187 | plumbing: one entry per element of the accepted `questions` array, in order |
| QuestionNormalise.NormaliseAt | supabase/functions/generate-research-questions/index.ts:189-194 | the `map` callback throws exactly on a rationale that is present but neither null nor a string |
| QuestionNormalise.NormaliseAtFields | supabase/functions/generate-research-questions/index.ts:189-194 | position is index + 1 whatever the model said, the question is trimmed, and the rationale is null iff absent or blank, else trimmed |
| QuestionNormalise.MapIndexed | supabase/functions/generate-research-questions/index.ts:189-194 | plumbing: mapping succeeds iff no entry throws, keeps the length, and maps element i with index i; the positions it yields are stated by MappedPrefix |
| QuestionNormalise.KeepAsked | supabase/functions/generate-research-questions/index.ts:195 | the filter keeps exactly the questions with non-empty text, never lengthening the list |
| QuestionNormalise.KeepAskedIncreasing | supabase/functions/generate-research-questions/index.ts:195 | filtering keeps positions strictly increasing |
| QuestionNormalise.Normalise | supabase/functions/generate-research-questions/index.ts:187-195 | the `slice`/`map`/`filter` pipeline; stated by NormaliseThrowsIff, MappedPrefix, NormaliseBounded, NormaliseKeeps, NormaliseComplete and BlankEntryLeavesGap |
| QuestionNormalise.NormaliseThrowsIff | supabase/functions/generate-research-questions/index.ts:187-194 | the pipeline throws iff one of the first `count` elements has a non-string, non-null rationale |
| QuestionNormalise.MappedPrefix | supabase/functions/generate-research-questions/index.ts:187-194 | the mapped list has min(count, length) elements, element i being entry i at position i + 1 |
| QuestionNormalise.NormaliseBounded | supabase/functions/generate-research-questions/index.ts:187-195 | at most min(count, length) questions survive, in strictly increasing position order |
| QuestionNormalise.NormaliseKeeps | supabase/functions/generate-research-questions/index.ts:187-195 | every surviving question comes from the entry at index position - 1 among the first `count`, and has non-empty text |
| QuestionNormalise.NormaliseComplete | supabase/functions/generate-research-questions/index.ts:187-195 | every entry among the first `count` with non-blank text survives, at position index + 1 |
| QuestionNormalise.BlankEntryLeavesGap | supabase/functions/generate-research-questions/index.ts:189-195 | a blank first entry followed by "Q" yields the single question "Q" at position 2 |
| QuestionRows.InsertionPoint | src/hooks/useQuestions.ts:80-82 | the insertion point lies after every row whose position is at most the new row's and before every larger one |
| QuestionRows.InsertByPositionAt | src/hooks/useQuestions.ts:80-82 | insertion shifts the rows from the insertion point up by one and puts the new row there |
| QuestionRows.BeforeInsertionPoint | src/hooks/useQuestions.ts:80-82 | in a sorted list every row before the insertion point has a position at most the new row's |
| QuestionRows.InsertByPositionKeepsSorted | src/hooks/useQuestions.ts:80-82 | inserting into a sorted list keeps it sorted |
| QuestionRows.InsertByPositionAddsOne | src/hooks/useQuestions.ts:80-82 | insertion adds exactly the new row (multiset) |
| QuestionRows.InsertByPositionSorted | src/hooks/useQuestions.ts:80-82 | insertion keeps the list sorted, adds exactly the new row, and places it after equal positions |
| QuestionRows.SortByPosition | src/hooks/useQuestions.ts:81 | the stable ordering by position; stated by SortByPositionSorts, SortSortedIsIdentity, SortAppended and GreatestGoesLast |
| QuestionRows.SortByPositionSorts | src/hooks/useQuestions.ts:81 | the ordering by position yields a sorted permutation of its input |
| QuestionRows.InsertAtEnd | src/hooks/useQuestions.ts:80-82 | a row at or past the last position is appended |
| QuestionRows.SortSortedIsIdentity | supabase/functions/generate-research-questions/index.ts:225 | ordering a list already in position order changes nothing |
| QuestionRows.SortAppended | src/hooks/useQuestions.ts:80-82 | appending a row to a sorted list and re-sorting is inserting it at its insertion point |
| QuestionRows.GreatestGoesLast | src/hooks/useQuestions.ts:80-82 | a row whose position exceeds every listed one stays last after re-sorting |
| QuestionTable.RowsOf | src/hooks/useQuestions.ts:32 | the project's rows are exactly the stored rows with that project id |
| QuestionTable.WithoutProject | supabase/functions/generate-research-questions/index.ts:201-204 | the kept rows are exactly the stored rows of other projects |
| QuestionTable.RowsOfAppend | supabase/functions/generate-research-questions/index.ts:201-221 | a project's view of two concatenated tables is the concatenation of the views |
| QuestionTable.RowsOfWithoutProject | supabase/functions/generate-research-questions/index.ts:201-204 | after the delete the project has no rows and every other project's rows are unchanged |
| QuestionTable.RowsOfUniform | supabase/functions/generate-research-questions/index.ts:210-221 | rows that all belong to one project are that project's whole view and no other's |
| QuestionTable.Assigned | supabase/functions/generate-research-questions/index.ts:210-221 | plumbing: one stored row per draft, with the draft's fields and consecutive ids from the counter |
| QuestionTable.AssignedIdsFresh | supabase/functions/generate-research-questions/index.ts:210-221 | rows created from a counter above every stored id get ids no stored row has, and distinct from each other |
| QuestionTable.Table.DeleteProject | supabase/functions/generate-research-questions/index.ts:201-208 | on success the project's rows are removed and the rest kept in order; on failure nothing changes |
| QuestionTable.Table.Insert | supabase/functions/generate-research-questions/index.ts:210-229 | all drafts are stored after the existing rows with fresh ids, or on failure none is; every id still names at most one row |
| GenerateHandler.BeforeProvider | supabase/functions/generate-research-questions/index.ts:60-131 | the checks before the provider call, in source order, with their exact statuses and messages; stated by MethodChecksFirst, MissingTokenBeforeBody, BodyReadFailures, MissingProjectIdBeforeAuth, BlankTopicStops, ProviderCountInRange and PlanChecksPassed |
| GenerateHandler.ProviderCountInRange | supabase/functions/generate-research-questions/index.ts:124-129 | the provider is asked for the request's `numQuestions` resolved as EffectiveCount, always 1 to 15 |
| GenerateHandler.AfterProvider | supabase/functions/generate-research-questions/index.ts:158-199 | the checks on the provider's reply and the normalisation; stated by SchemaInvalidRejectsWhole, ReplyCrashesIff and ReplyQuestionsUsable |
| GenerateHandler.Screen | supabase/functions/generate-research-questions/index.ts:60-199 | the whole ladder up to the store; `Handle` is proved against it, and EarlyStopIgnoresProvider, PlanChecksPassed and PlanQuestionsUsable state its properties |
| GenerateHandler.Drafts | supabase/functions/generate-research-questions/index.ts:213-220 | plumbing: one draft per normalised question, with its position, text and rationale, `source = "ai"`, `status = "draft"`; the stored result is stated by ReplaceReturnsInserted and ReplaceStoresInserted |
| GenerateHandler.InsertedInOrder | supabase/functions/generate-research-questions/index.ts:222-225 | the inserted rows are already in ascending position order |
| GenerateHandler.Replace | supabase/functions/generate-research-questions/index.ts:201-231 | delete then insert, returning 400 with the store's message on either failure and 200 with the inserted rows otherwise (`ReplaceOutcome`) |
| GenerateHandler.Handle | supabase/functions/generate-research-questions/index.ts:60-231 | a failing check answers with the specification's response and leaves the table untouched; otherwise the table and response are those of the replacement |
| GenerateHandler.HandleReply | supabase/functions/generate-research-questions/index.ts:158-231 | the same, from the provider's reply on |
| GenerateHandler.MethodChecksFirst | supabase/functions/generate-research-questions/index.ts:61-66 | OPTIONS answers 204 with no body before any other check; any method other than POST answers 405 |
| GenerateHandler.MissingTokenBeforeBody | supabase/functions/generate-research-questions/index.ts:79-83 | a missing, non-Bearer or empty credential answers 401 whatever the body, caller and project |
| GenerateHandler.BodyReadFailures | supabase/functions/generate-research-questions/index.ts:85-92 | a body that is not JSON answers 400 "Invalid JSON body"; a JSON `null` body makes the handler throw (500) |
| GenerateHandler.MissingProjectIdBeforeAuth | supabase/functions/generate-research-questions/index.ts:92-107 | a missing or empty project id answers 400 whether or not the caller is recognised |
| GenerateHandler.EarlyStopIgnoresProvider | supabase/functions/generate-research-questions/index.ts:60-122 | when a check before the provider call fails, the provider's reply plays no part |
| GenerateHandler.BlankTopicStops | supabase/functions/generate-research-questions/index.ts:119-122 | a topic that resolves to whitespace only answers 400 "Topic is empty" |
| GenerateHandler.SchemaInvalidRejectsWhole | supabase/functions/generate-research-questions/index.ts:180-185 | a parsed reply that is not a well-formed payload answers 502 with the parsed value |
| GenerateHandler.ReplyCrashesIff | supabase/functions/generate-research-questions/index.ts:187-194 | a well-formed reply makes the handler throw iff one of the first `count` elements has a non-string, non-null rationale |
| GenerateHandler.PlanChecksPassed | supabase/functions/generate-research-questions/index.ts:60-131 | a run that reaches the store was a POST with a credential, a project id, a recognised caller, a found project, a non-empty topic and a count in [1, 15] |
| GenerateHandler.PlanQuestionsUsable | supabase/functions/generate-research-questions/index.ts:187-199 | such a run stores between 1 and `count` questions with non-empty text and strictly increasing positions in [1, count] |
| GenerateHandler.ReplyQuestionsUsable | supabase/functions/generate-research-questions/index.ts:158-199 | the same, for any reply that passes the provider checks |
| GenerateHandler.ReplaceReturnsInserted | supabase/functions/generate-research-questions/index.ts:210-231 | a successful replacement answers 200 with one row per question, carrying its position, text and rationale, tagged with the project, "ai" and "draft", in strictly ascending position |
| GenerateHandler.ReplaceStoresInserted | supabase/functions/generate-research-questions/index.ts:201-231 | after a successful replacement the project's stored rows are exactly the returned ones, and every other project's rows are unchanged |
| GenerateHandler.ReplaceFails | supabase/functions/generate-research-questions/index.ts:201-229 | a failed delete changes nothing; a failed insert after the delete leaves the project with no questions; other projects are untouched; the answer is 400 |
| QuestionsHook.NextPosition | src/hooks/useQuestions.ts:55-58 | an explicit position is used; otherwise one past the last listed question's, or 1 for an empty list |
| QuestionsHook.NextPositionIsGreatest | src/hooks/useQuestions.ts:55-58 | with no explicit position the new row's position exceeds every listed one, so it ends up last |
| QuestionsHook.Hook.constructor | src/hooks/useQuestions.ts:18-20 | an empty, sorted list, loading, no error |
| QuestionsHook.Hook.Refresh | src/hooks/useQuestions.ts:22-44 | without a project nothing changes; on a query error the list is emptied and the message kept; otherwise the list is the project's rows ordered by position; the list stays sorted |
| QuestionsHook.Hook.CreateQuestion | src/hooks/useQuestions.ts:46-86 | without a project it throws "projectId requerido" and sends nothing; otherwise it sends the row with the next position and `source = "user"`; on a store error the message is kept and the list unchanged; on success the created row is added and the list re-sorted |
| QuestionsHook.CreatedRowPlacement | src/hooks/useQuestions.ts:79-83 | a created row grows the sorted list by exactly that row, after every row with a position at most its own and before every larger one |
| AnswersHook.IdsOf | src/hooks/useAnswers.ts:43 | the id set holds exactly the ids of the listed questions |
| AnswersHook.AnswersFor | src/hooks/useAnswers.ts:50-53 | the loaded answers are exactly the stored answers to one of the given questions |
| AnswersHook.Without | src/hooks/useAnswers.ts:88-91 | the kept answers are exactly those to other questions |
| AnswersHook.KeptIndices | src/hooks/useAnswers.ts:88-91 | the ascending indices of the answers to other questions: every such index, and only such indices |
| AnswersHook.WithoutKeepsOrder | src/hooks/useAnswers.ts:88-91 | the filter's k-th element is the k-th answer to another question, so the kept answers stay once each and in their original order |
| AnswersHook.IndexByQuestion | src/hooks/useAnswers.ts:20-24 | the index `answersByQuestionId` builds; stated by IndexKeys, IndexHoldsLast, IndexWithout and IndexAfterUpsert |
| AnswersHook.IndexKeys | src/hooks/useAnswers.ts:20-24 | the index has a key for exactly the questions that have an answer, each holding one of that question's answers |
| AnswersHook.IndexHoldsLast | src/hooks/useAnswers.ts:20-24 | for each question the index holds the last answer listed for it |
| AnswersHook.IndexWithout | src/hooks/useAnswers.ts:88-91 | dropping a question's answers drops exactly that key from the index |
| AnswersHook.IndexAfterUpsert | src/hooks/useAnswers.ts:86-93 | after an upsert the index is the old index with the question's entry replaced by the saved answer |
| AnswersHook.UpsertLeavesOne | src/hooks/useAnswers.ts:88-93 | after an upsert the list holds exactly one answer to that question, the last one |
| AnswersHook.Hook.constructor | src/hooks/useAnswers.ts:16-18 | no answers, loading, no error |
| AnswersHook.Hook.AnswersByQuestionId | src/hooks/useAnswers.ts:20-24 | the loop builds exactly the index of the current answers |
| AnswersHook.Hook.Refresh | src/hooks/useAnswers.ts:26-64 | without a project nothing changes; a failing question query empties the answers and keeps the message; no questions empties them without querying answers; a failing answer query empties them and keeps its message; otherwise the answers to the project's questions are loaded |
| AnswersHook.Hook.UpsertAnswer | src/hooks/useAnswers.ts:66-97 | sends the answer with status "saved", merged on (question_id, user_id); on a store error the message is kept and the list unchanged; on success the question's earlier answers are replaced by the saved one, appended last |
| AnswersHook.LoadedAnswersBelongToProject | src/hooks/useAnswers.ts:31-53 | every loaded answer is a stored answer to one of the project's questions |

## Left out

- Timestamps (`created_at`, `updated_at`) are not modelled. Row ids are natural numbers handed out by a counter, where the store uses UUIDs.
- Network and platform effects are not modelled: CORS headers, content types, the prompt wording, the temperature, the response format and the `fetch` itself. The provider is represented only by its reply.
- `openaiRes.json()` throwing on a non-JSON success body is not modelled. The content path `choices[0].message.content` is an input.
- `JSON.parse` is not modelled. Its outcome is an input.
- JSON numbers are integers. Fractional numbers, NaN and Infinity are not modelled.
- GenerateParams.EffectiveCount: a fractional `numQuestions` in [1, 15] is not modelled. The source passes it on, and `slice` then truncates it.
- Body fields with the wrong JSON type are not modelled. A non-string topic, language or model throws at `trim`, and a non-string project id passes the truthiness check. The body's fields are typed as optional strings.
- Caller authentication is a boolean input, and the project lookup is an input. The store's row-level security, which limits every query to the caller's rows, is left to the store.
- The store's order among rows with equal positions is unspecified. The model orders them with a stable sort that keeps the insertion or snapshot order.
- Neither hook's query results are re-checked at run time (the source casts them). Store order is kept for the answers.
- QuestionsHook.Hook.CreateQuestion: the created row is the sent row plus the id and status the store assigns. Store triggers that rewrite other columns are not modelled.
- AnswersHook.Hook.UpsertAnswer: the store's merge of a conflicting row happens inside the store and is not modelled. The saved row is the sent answer plus the id and owner the store assigns.
- React scheduling is not modelled: `useEffect`, the `cancelled` flag, state batching, stale closures and concurrent callbacks. Each callback runs to completion on the current state. The intermediate `loading = true` is collapsed into the final state.
- Error objects are reduced to their messages.
